/** The usage report told by the table of attempts alone. */
module UsageReport {
  import opened Prelude
  import opened UsageLedger

  /** The sum of v over the rows that satisfy p. */
  function Sum(rows: seq<Attempt>, p: Attempt -> bool, v: Attempt -> int): int {
    if rows == [] then 0
    else
      var last := rows[|rows| - 1];
      Sum(rows[..|rows| - 1], p, v) + if p(last) then v(last) else 0
  }

  function SumLines(out: seq<Line>, v: Line -> int): int {
    if out == [] then 0 else SumLines(out[..|out| - 1], v) + v(out[|out| - 1])
  }

  /** A row that the report counts. */
  predicate Counts(filter: Attempt -> bool, a: Attempt) {
    a.outcome == Success && filter(a)
  }

  /** A row of this line. */
  predicate OnLine(a: Attempt, g: Group) {
    a.provider == g.provider && a.account == g.account && a.model == g.model && a.project == g.project
  }

  /** What an attempt costs: its tokens at the price of the version in force when it was made. */
  function CostOf(prices: seq<Price>, a: Attempt): int {
    var p := PriceAt(prices, a.model, a.occurredAt);
    if p.None? then 0
    else a.usage.input * p.value.input + a.usage.output * p.value.output
         + a.usage.cacheRead * p.value.cacheRead + a.usage.cacheWrite * p.value.cacheWrite
  }

  /** The rows that a report counts, and those of one line. */
  function Counted(filter: Attempt -> bool): Attempt -> bool {
    (a: Attempt) => Counts(filter, a)
  }

  function CountedOn(filter: Attempt -> bool, g: Group): Attempt -> bool {
    (a: Attempt) => Counts(filter, a) && OnLine(a, g)
  }

  /** What is added up over rows, and over lines. */
  const ROWS := (a: Attempt) => 1
  const INPUT := (a: Attempt) => a.usage.input
  const OUTPUT := (a: Attempt) => a.usage.output
  const CACHE_READ := (a: Attempt) => a.usage.cacheRead
  const CACHE_WRITE := (a: Attempt) => a.usage.cacheWrite
  const REASONING := (a: Attempt) => a.usage.reasoning

  function Costs(prices: seq<Price>): Attempt -> int {
    (a: Attempt) => CostOf(prices, a)
  }

  function Amounts(prices: seq<Price>, m: Measure): Attempt -> int {
    (a: Attempt) => Amount(prices, a, m)
  }

  const LINE_ROWS := (l: Line) => l.requests as int
  const LINE_INPUT := (l: Line) => l.tokens.input
  const LINE_OUTPUT := (l: Line) => l.tokens.output
  const LINE_CACHE_READ := (l: Line) => l.tokens.cacheRead
  const LINE_CACHE_WRITE := (l: Line) => l.tokens.cacheWrite
  const LINE_REASONING := (l: Line) => l.tokens.reasoning
  const LINE_COST := (l: Line) => l.cost

  // ---- selected rows and their totals ----

  lemma {:induction false} SelectedMeaning(attempts: seq<Attempt>, filter: Attempt -> bool)
    ensures forall a :: a in Selected(attempts, filter) <==> a in attempts && Counts(filter, a)
  {
    if attempts != [] {
      SelectedMeaning(attempts[..|attempts| - 1], filter);
      assert attempts == attempts[..|attempts| - 1] + [attempts[|attempts| - 1]];
    }
  }

  lemma {:induction false} SumSame(rows: seq<Attempt>, p: Attempt -> bool, v: Attempt -> int, w: Attempt -> int)
    requires forall a :: v(a) == w(a)
    ensures Sum(rows, p, v) == Sum(rows, p, w)
  {
    if rows != [] {
      SumSame(rows[..|rows| - 1], p, v, w);
    }
  }

  lemma MembersSnoc(rows: seq<Attempt>, a: Attempt, g: Group)
    ensures Members(rows + [a], g) == Members(rows, g) + if GroupOf(a) == g then [a] else []
  {
    assert (rows + [a])[..|rows|] == rows;
  }

  lemma TotalSnoc(prices: seq<Price>, rows: seq<Attempt>, a: Attempt, m: Measure)
    ensures Total(prices, rows + [a], m) == Total(prices, rows, m) + Amount(prices, a, m)
  {
    assert (rows + [a])[..|rows|] == rows;
  }

  lemma {:induction false} MembersTotal(prices: seq<Price>, attempts: seq<Attempt>, filter: Attempt -> bool, g: Group,
                                        m: Measure)
    ensures Total(prices, Members(Selected(attempts, filter), g), m)
            == Sum(attempts, CountedOn(filter, g), Amounts(prices, m))
  {
    if attempts != [] {
      var before, last := attempts[..|attempts| - 1], attempts[|attempts| - 1];
      MembersTotal(prices, before, filter, g, m);
      MemberAdds(prices, Selected(before, filter), last, filter, g, m);
      assert attempts == before + [last];
      SelectedSnoc(before, last, filter);
      SumSnoc(before, last, CountedOn(filter, g), Amounts(prices, m));
    }
  }

  lemma SelectedSnoc(rows: seq<Attempt>, a: Attempt, filter: Attempt -> bool)
    ensures Selected(rows + [a], filter)
            == Selected(rows, filter) + if a.outcome == Success && filter(a) then [a] else []
  {
    assert (rows + [a])[..|rows|] == rows;
  }

  lemma SumSnoc(rows: seq<Attempt>, a: Attempt, p: Attempt -> bool, v: Attempt -> int)
    ensures Sum(rows + [a], p, v) == Sum(rows, p, v) + if p(a) then v(a) else 0
  {
    assert (rows + [a])[..|rows|] == rows;
  }

  /** What one more row of the table adds to the members of a group. */
  lemma MemberAdds(prices: seq<Price>, rows: seq<Attempt>, a: Attempt, filter: Attempt -> bool, g: Group, m: Measure)
    ensures Total(prices, Members(rows + if a.outcome == Success && filter(a) then [a] else [], g), m)
            == Total(prices, Members(rows, g), m)
               + if Counts(filter, a) && OnLine(a, g) then Amount(prices, a, m) else 0
  {
    if Counts(filter, a) {
      MembersSnoc(rows, a, g);
      TotalSnoc(prices, Members(rows, g), a, m);
      assert Members(rows, g) + [] == Members(rows, g);
    } else {
      assert rows + [] == rows;
    }
  }

  // ---- what a report says ----

  /** One line: its requests, tokens and cost are counted over the successful rows that the filter takes and
      that have the line's four columns. */
  ghost predicate Told(prices: seq<Price>, attempts: seq<Attempt>, p: Attempt -> bool, l: Line) {
    && l.requests == Sum(attempts, p, ROWS)
    && l.tokens.input == Sum(attempts, p, INPUT)
    && l.tokens.output == Sum(attempts, p, OUTPUT)
    && l.tokens.cacheRead == Sum(attempts, p, CACHE_READ)
    && l.tokens.cacheWrite == Sum(attempts, p, CACHE_WRITE)
    && l.tokens.reasoning == Sum(attempts, p, REASONING)
    && l.cost == Sum(attempts, p, Costs(prices))
  }

  lemma FieldTold(prices: seq<Price>, attempts: seq<Attempt>, filter: Attempt -> bool, l: Line, m: Measure,
                  v: Attempt -> int)
    requires LineOk(prices, Selected(attempts, filter), l.group, l) && forall a :: v(a) == Amount(prices, a, m)
    ensures Field(l, m) == Sum(attempts, CountedOn(filter, l.group), v)
  {
    MembersTotal(prices, attempts, filter, l.group, m);
    SumSame(attempts, CountedOn(filter, l.group), v, Amounts(prices, m));
  }

  lemma LineTold(prices: seq<Price>, attempts: seq<Attempt>, filter: Attempt -> bool, l: Line)
    requires LineOk(prices, Selected(attempts, filter), l.group, l)
    ensures Told(prices, attempts, CountedOn(filter, l.group), l)
  {
    FieldTold(prices, attempts, filter, l, Requests, ROWS);
    FieldTold(prices, attempts, filter, l, Tokens(Input), INPUT);
    FieldTold(prices, attempts, filter, l, Tokens(Output), OUTPUT);
    FieldTold(prices, attempts, filter, l, Tokens(CacheRead), CACHE_READ);
    FieldTold(prices, attempts, filter, l, Tokens(CacheWrite), CACHE_WRITE);
    FieldTold(prices, attempts, filter, l, Reasoning, REASONING);
    FieldTold(prices, attempts, filter, l, Cost, Costs(prices));
  }

  /** Every line is told by the table; no two lines have the same four columns; every successful row that the
      filter takes is on a line. */
  lemma LinesTold(prices: seq<Price>, attempts: seq<Attempt>, filter: Attempt -> bool, out: seq<Line>)
    requires ReportOf(prices, attempts, filter, Ok(out))
    ensures forall k :: 0 <= k < |out| ==>
              Told(prices, attempts, CountedOn(filter, out[k].group), out[k])
    ensures forall j, k :: 0 <= j < k < |out| ==> out[j].group != out[k].group
    ensures forall a :: a in attempts && Counts(filter, a) ==> exists k :: 0 <= k < |out| && OnLine(a, out[k].group)
  {
    var rows := Selected(attempts, filter);
    forall k | 0 <= k < |out|
      ensures Told(prices, attempts, CountedOn(filter, out[k].group), out[k])
    {
      assert LineOk(prices, rows, Groups(rows)[k], out[k]);
      LineTold(prices, attempts, filter, out[k]);
    }
    GroupsDistinct(rows);
    SelectedMeaning(attempts, filter);
    GroupsCover(rows);
    forall a | a in attempts && Counts(filter, a) ensures exists k :: 0 <= k < |out| && OnLine(a, out[k].group) {
      assert a in rows && GroupOf(a) in Groups(rows);
      var k :| 0 <= k < |out| && Groups(rows)[k] == GroupOf(a);
      assert LineOk(prices, rows, Groups(rows)[k], out[k]);
      assert OnLine(a, out[k].group);
    }
  }

  // ---- the whole report ----

  lemma {:induction false} LinesSum(out: seq<Line>, m: Measure, v: Line -> int)
    requires forall l :: v(l) == Field(l, m)
    ensures SumLines(out, v) == OverLines(out, m)
  {
    if out != [] {
      LinesSum(out[..|out| - 1], m, v);
    }
  }

  lemma {:induction false} SelectedTotal(prices: seq<Price>, attempts: seq<Attempt>, filter: Attempt -> bool,
                                         m: Measure)
    ensures Total(prices, Selected(attempts, filter), m)
            == Sum(attempts, Counted(filter), Amounts(prices, m))
  {
    if attempts != [] {
      var before, last := attempts[..|attempts| - 1], attempts[|attempts| - 1];
      SelectedTotal(prices, before, filter, m);
      TotalSnoc(prices, Selected(before, filter), last, m);
      assert Selected(before, filter) + [] == Selected(before, filter);
    }
  }

  lemma OneTotal(prices: seq<Price>, attempts: seq<Attempt>, filter: Attempt -> bool, out: seq<Line>, m: Measure,
                 v: Attempt -> int, w: Line -> int)
    requires Reports(prices, Selected(attempts, filter), out)
    requires (forall a :: v(a) == Amount(prices, a, m)) && forall l :: w(l) == Field(l, m)
    ensures SumLines(out, w) == Sum(attempts, Counted(filter), v)
  {
    ReportConserves(prices, Selected(attempts, filter), out, m);
    SelectedTotal(prices, attempts, filter, m);
    LinesSum(out, m, w);
    SumSame(attempts, Counted(filter), v, Amounts(prices, m));
  }

  lemma TokensTold(prices: seq<Price>, attempts: seq<Attempt>, filter: Attempt -> bool, out: seq<Line>)
    requires Reports(prices, Selected(attempts, filter), out)
    ensures SumLines(out, LINE_INPUT) == Sum(attempts, Counted(filter), INPUT)
    ensures SumLines(out, LINE_OUTPUT) == Sum(attempts, Counted(filter), OUTPUT)
    ensures SumLines(out, LINE_CACHE_READ) == Sum(attempts, Counted(filter), CACHE_READ)
    ensures SumLines(out, LINE_CACHE_WRITE) == Sum(attempts, Counted(filter), CACHE_WRITE)
    ensures SumLines(out, LINE_REASONING) == Sum(attempts, Counted(filter), REASONING)
  {
    OneTotal(prices, attempts, filter, out, Tokens(Input), INPUT, LINE_INPUT);
    OneTotal(prices, attempts, filter, out, Tokens(Output), OUTPUT, LINE_OUTPUT);
    OneTotal(prices, attempts, filter, out, Tokens(CacheRead), CACHE_READ, LINE_CACHE_READ);
    OneTotal(prices, attempts, filter, out, Tokens(CacheWrite), CACHE_WRITE, LINE_CACHE_WRITE);
    OneTotal(prices, attempts, filter, out, Reasoning, REASONING, LINE_REASONING);
  }

  /** Over all lines: the number of successful rows that the filter takes, their tokens, and what they cost. */
  lemma ReportTold(prices: seq<Price>, attempts: seq<Attempt>, filter: Attempt -> bool, out: seq<Line>)
    requires ReportOf(prices, attempts, filter, Ok(out))
    ensures SumLines(out, LINE_ROWS) == Sum(attempts, Counted(filter), ROWS)
    ensures SumLines(out, LINE_INPUT) == Sum(attempts, Counted(filter), INPUT)
    ensures SumLines(out, LINE_OUTPUT) == Sum(attempts, Counted(filter), OUTPUT)
    ensures SumLines(out, LINE_CACHE_READ) == Sum(attempts, Counted(filter), CACHE_READ)
    ensures SumLines(out, LINE_CACHE_WRITE) == Sum(attempts, Counted(filter), CACHE_WRITE)
    ensures SumLines(out, LINE_REASONING) == Sum(attempts, Counted(filter), REASONING)
    ensures SumLines(out, LINE_COST) == Sum(attempts, Counted(filter), Costs(prices))
  {
    OneTotal(prices, attempts, filter, out, Requests, ROWS, LINE_ROWS);
    TokensTold(prices, attempts, filter, out);
    OneTotal(prices, attempts, filter, out, Cost, Costs(prices), LINE_COST);
  }

  // ---- when there is a report ----

  /** No version of the row's model was in force when it was made. */
  ghost predicate Unpriced(prices: seq<Price>, a: Attempt) {
    forall q :: q in prices && q.model == a.model ==> q.effectiveAt > a.occurredAt
  }

  /** None of the counted rows with these four columns has a price. */
  ghost predicate LineUnpriced(prices: seq<Price>, attempts: seq<Attempt>, filter: Attempt -> bool, g: Group) {
    forall b :: b in attempts && Counts(filter, b) && OnLine(b, g) ==> Unpriced(prices, b)
  }

  lemma LineUnpricedMeaning(prices: seq<Price>, attempts: seq<Attempt>, filter: Attempt -> bool, g: Group)
    ensures AnyPriced(prices, Members(Selected(attempts, filter), g)) <==>
            !LineUnpriced(prices, attempts, filter, g)
  {
    var rows := Selected(attempts, filter);
    SelectedMeaning(attempts, filter);
    MembersAreRows(rows, g);
    forall b: Attempt ensures PriceAt(prices, b.model, b.occurredAt).None? <==> Unpriced(prices, b) {
      PriceMeaning(prices, b.model, b.occurredAt);
    }
    assert forall b :: b in Members(rows, g) <==> b in attempts && Counts(filter, b) && OnLine(b, g);
  }

  /** There is no report exactly when some successful row that the filter takes is unpriced, and so are all
      others on its line. */
  lemma RefusedExactly(prices: seq<Price>, attempts: seq<Attempt>, filter: Attempt -> bool,
                       r: Result<seq<Line>, ReportError>)
    requires ReportOf(prices, attempts, filter, r)
    ensures r.Err? <==> exists a :: a in attempts && Counts(filter, a)
                                    && LineUnpriced(prices, attempts, filter,
                                                    Group(a.provider, a.account, a.model, a.project))
  {
    var rows := Selected(attempts, filter);
    SelectedMeaning(attempts, filter);
    GroupsCover(rows);
    forall g ensures AnyPriced(prices, Members(rows, g)) <==> !LineUnpriced(prices, attempts, filter, g) {
      LineUnpricedMeaning(prices, attempts, filter, g);
    }
    if r.Err? {
      var k :| 0 <= k < |Groups(rows)| && !AnyPriced(prices, Members(rows, Groups(rows)[k]));
      assert Groups(rows)[k] in Groups(rows);
      var a :| a in rows && GroupOf(a) == Groups(rows)[k];
      assert a in attempts && Counts(filter, a);
    } else {
      forall a | a in attempts && Counts(filter, a)
        ensures !LineUnpriced(prices, attempts, filter, Group(a.provider, a.account, a.model, a.project))
      {
        assert a in rows && GroupOf(a) in Groups(rows);
        var k :| 0 <= k < |Groups(rows)| && Groups(rows)[k] == GroupOf(a);
        assert AnyPriced(prices, Members(rows, Groups(rows)[k]));
      }
    }
  }

  // ---- rows that do not matter ----

  lemma {:induction false} SelectedWithout(before: seq<Attempt>, x: Attempt, after: seq<Attempt>,
                                           filter: Attempt -> bool)
    requires !Counts(filter, x)
    ensures Selected(before + [x] + after, filter) == Selected(before + after, filter)
    decreases |after|
  {
    if after == [] {
      assert before + [x] + after == before + [x] && before + after == before;
      assert (before + [x])[..|before|] == before;
    } else {
      var n := |after| - 1;
      SelectedWithout(before, x, after[..n], filter);
      assert (before + [x] + after)[..|before + [x] + after| - 1] == before + [x] + after[..n];
      assert (before + after)[..|before + after| - 1] == before + after[..n];
    }
  }

  /** A row that is not a success, or that the filter refuses, makes no difference to any report, wherever it
      stands and whatever it says. */
  lemma UncountedRowChangesNothing(prices: seq<Price>, before: seq<Attempt>, x: Attempt, after: seq<Attempt>,
                                   filter: Attempt -> bool, r: Result<seq<Line>, ReportError>)
    requires !(x.outcome == Success && filter(x))
    ensures ReportOf(prices, before + [x] + after, filter, r) <==> ReportOf(prices, before + after, filter, r)
  {
    SelectedWithout(before, x, after, filter);
  }
}
