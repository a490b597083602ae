/** The table of upstream attempts, the price versions, and the usage report over both. */
module UsageLedger {
  import opened Prelude

  datatype Outcome = Started | Success | Failed | Cancelled | Partial | Uncertain
  datatype Usage = Usage(input: int, output: int, cacheRead: int, cacheWrite: int, reasoning: int)
  datatype Key = Key(request: string, attempt: string)

  const NO_USAGE := Usage(0, 0, 0, 0, 0)

  /** One row of request_attempts: the columns that the usage report reads. */
  datatype Attempt = Attempt(key: Key, provider: string, account: string, model: string, project: string,
                             outcome: Outcome, usage: Usage, occurredAt: int, finishedAt: int)

  datatype Price = Price(model: string, effectiveAt: int, input: int, output: int, cacheRead: int, cacheWrite: int)

  // ---- recording attempts ----

  datatype Start = Start(key: Key, provider: string, account: string, model: string, project: string, occurredAt: int)
  datatype Finish = Finish(key: Key, outcome: Outcome, usage: Usage, model: string)

  datatype FinishError = NoSuchAttempt

  function NewRow(a: Start): Attempt {
    Attempt(a.key, a.provider, a.account, a.model, a.project, Started, NO_USAGE, a.occurredAt, 0)
  }

  function Closed(row: Attempt, f: Finish, now: int): Attempt {
    row.(outcome := f.outcome, usage := f.usage, model := if f.model != "" then f.model else row.model,
         finishedAt := now)
  }

  predicate Present(rows: seq<Attempt>, key: Key) {
    exists i :: 0 <= i < |rows| && rows[i].key == key
  }

  /** The unique constraint of the table. */
  ghost predicate KeysUnique(rows: seq<Attempt>) {
    forall i, j :: 0 <= i < j < |rows| ==> rows[i].key != rows[j].key
  }

  function CloseAll(rows: seq<Attempt>, f: Finish, now: int): seq<Attempt> {
    if rows == [] then []
    else
      var last := rows[|rows| - 1];
      CloseAll(rows[..|rows| - 1], f, now) + [if last.key == f.key then Closed(last, f, now) else last]
  }

  class Store {
    var attempts: seq<Attempt>
    var prices: seq<Price>

    constructor ()
      ensures attempts == [] && prices == []
    {
      attempts, prices := [], [];
    }

    /** A second start under the same key is ignored. */
    method CreateAttempt(a: Start)
      modifies this
      ensures prices == old(prices)
      ensures attempts == old(attempts) + if Present(old(attempts), a.key) then [] else [NewRow(a)]
    {
      if !Present(attempts, a.key) {
        attempts := attempts + [NewRow(a)];
      }
    }

    method FinishAttempt(f: Finish, now: int) returns (r: Result<(), FinishError>)
      modifies this
      ensures prices == old(prices) && attempts == CloseAll(old(attempts), f, now)
      ensures r == (if Present(old(attempts), f.key) then Ok(()) else Err(NoSuchAttempt))
    {
      var affected := Present(attempts, f.key);
      attempts := CloseAll(attempts, f, now);
      return if affected then Ok(()) else Err(NoSuchAttempt);
    }

    method UpsertPriceVersion(p: Price)
      modifies this
      ensures attempts == old(attempts) && prices == old(prices) + [p]
    {
      prices := prices + [p];
    }

    /** The report is refused exactly when some group has no priced attempt: its cost columns are null.
        Otherwise it has one line for each group, with that group's totals. */
    method AggregateUsage(filter: Attempt -> bool) returns (r: Result<seq<Line>, ReportError>)
      ensures ReportOf(prices, attempts, filter, r)
    {
      var rows := Selected(attempts, filter);
      var groups := Groups(rows);
      var out: seq<Line> := [];
      for i := 0 to |groups|
        invariant |out| == i && ReportsSoFar(prices, rows, out)
      {
        var members := Members(rows, groups[i]);
        ColumnsAddUp(prices, members);
        var costs := Columns(prices, members);
        if costs.None? {
          assert !AnyPriced(prices, Members(rows, Groups(rows)[i]));
          return Err(NullCost);
        }
        var line := Summarise(members, groups[i], costs.value);
        LineTotals(prices, rows, groups[i], line);
        OneMoreLine(prices, rows, out, line);
        out := out + [line];
      }
      return Ok(out);
    }
  }

  // ---- prices ----

  /** The latest version in force at a time. */
  function PriceAt(prices: seq<Price>, model: string, t: int): Option<Price> {
    if prices == [] then None
    else
      var last := prices[|prices| - 1];
      var best := PriceAt(prices[..|prices| - 1], model, t);
      if last.model == model && last.effectiveAt <= t && (best.None? || best.value.effectiveAt <= last.effectiveAt)
      then Some(last) else best
  }

  /** No model has two versions that take effect together. */
  ghost predicate Versioned(prices: seq<Price>) {
    forall i, j :: 0 <= i < j < |prices| ==>
      prices[i].model != prices[j].model || prices[i].effectiveAt != prices[j].effectiveAt
  }

  ghost predicate InForce(prices: seq<Price>, p: Price, model: string, t: int) {
    && p in prices && p.model == model && p.effectiveAt <= t
    && forall q :: q in prices && q.model == model && q.effectiveAt <= t ==> q.effectiveAt <= p.effectiveAt
  }

  /** A version is chosen exactly when it is the latest one of its model not after the time. */
  lemma {:induction false} PriceMeaning(prices: seq<Price>, model: string, t: int)
    ensures var r := PriceAt(prices, model, t);
            && (r.Some? ==> InForce(prices, r.value, model, t))
            && (r.None? <==> forall q :: q in prices && q.model == model ==> q.effectiveAt > t)
    ensures Versioned(prices) ==>
              forall p :: InForce(prices, p, model, t) <==> PriceAt(prices, model, t) == Some(p)
  {
    if prices != [] {
      var before := prices[..|prices| - 1];
      var last := prices[|prices| - 1];
      PriceMeaning(before, model, t);
      assert prices == before + [last];
      assert forall q :: q in prices <==> q in before || q == last;
    }
    if Versioned(prices) {
      forall p | InForce(prices, p, model, t) ensures PriceAt(prices, model, t) == Some(p) {
        var r := PriceAt(prices, model, t);
        assert r.value.effectiveAt == p.effectiveAt;
      }
    }
  }

  // ---- the report ----

  datatype Group = Group(provider: string, account: string, model: string, project: string)
  datatype Line = Line(group: Group, requests: nat, tokens: Usage, cost: int)
  datatype ReportError = NullCost

  datatype Column = Input | Output | CacheRead | CacheWrite
  datatype Measure = Requests | Tokens(column: Column) | Reasoning | Cost

  function GroupOf(a: Attempt): Group {
    Group(a.provider, a.account, a.model, a.project)
  }

  function Count(u: Usage, c: Column): int {
    match c
    case Input => u.input
    case Output => u.output
    case CacheRead => u.cacheRead
    case CacheWrite => u.cacheWrite
  }

  function Rate(p: Price, c: Column): int {
    match c
    case Input => p.input
    case Output => p.output
    case CacheRead => p.cacheRead
    case CacheWrite => p.cacheWrite
  }

  function Selected(rows: seq<Attempt>, filter: Attempt -> bool): seq<Attempt> {
    if rows == [] then []
    else
      var last := rows[|rows| - 1];
      Selected(rows[..|rows| - 1], filter) + if last.outcome == Success && filter(last) then [last] else []
  }

  function Groups(rows: seq<Attempt>): seq<Group> {
    if rows == [] then []
    else
      var gs := Groups(rows[..|rows| - 1]);
      var g := GroupOf(rows[|rows| - 1]);
      if g in gs then gs else gs + [g]
  }

  function Members(rows: seq<Attempt>, g: Group): seq<Attempt> {
    if rows == [] then []
    else
      var last := rows[|rows| - 1];
      Members(rows[..|rows| - 1], g) + if GroupOf(last) == g then [last] else []
  }

  /** One product of the report's query; null when no price was in force. */
  function Cell(prices: seq<Price>, a: Attempt, c: Column): Option<int> {
    match PriceAt(prices, a.model, a.occurredAt)
    case None => None
    case Some(p) => Some(Count(a.usage, c) * Rate(p, c))
  }

  /** A sum passes over nulls, and is null when there is nothing else. */
  function SumCells(prices: seq<Price>, rows: seq<Attempt>, c: Column): Option<int> {
    if rows == [] then None
    else
      var sum := SumCells(prices, rows[..|rows| - 1], c);
      match Cell(prices, rows[|rows| - 1], c)
      case None => sum
      case Some(x) => Some(x + if sum.Some? then sum.value else 0)
  }

  /** The four cost columns of one line, scanned into integers and added. */
  function Columns(prices: seq<Price>, rows: seq<Attempt>): Option<int> {
    var i, o := SumCells(prices, rows, Input), SumCells(prices, rows, Output);
    var r, w := SumCells(prices, rows, CacheRead), SumCells(prices, rows, CacheWrite);
    if i.None? || o.None? || r.None? || w.None? then None else Some(i.value + o.value + r.value + w.value)
  }

  function SumTokens(rows: seq<Attempt>): Usage {
    if rows == [] then NO_USAGE
    else
      var s, u := SumTokens(rows[..|rows| - 1]), rows[|rows| - 1].usage;
      Usage(s.input + u.input, s.output + u.output, s.cacheRead + u.cacheRead, s.cacheWrite + u.cacheWrite,
            s.reasoning + u.reasoning)
  }

  function Summarise(members: seq<Attempt>, g: Group, cost: int): Line {
    Line(g, |members|, SumTokens(members), cost)
  }

  // ---- what the report means ----

  /** What one attempt costs: its tokens at the price in force when it was made. */
  function Charge(prices: seq<Price>, a: Attempt): int {
    match PriceAt(prices, a.model, a.occurredAt)
    case None => 0
    case Some(p) =>
      a.usage.input * p.input + a.usage.output * p.output
      + a.usage.cacheRead * p.cacheRead + a.usage.cacheWrite * p.cacheWrite
  }

  function Amount(prices: seq<Price>, a: Attempt, m: Measure): int {
    match m
    case Requests => 1
    case Tokens(c) => Count(a.usage, c)
    case Reasoning => a.usage.reasoning
    case Cost => Charge(prices, a)
  }

  function Total(prices: seq<Price>, rows: seq<Attempt>, m: Measure): int {
    if rows == [] then 0
    else Total(prices, rows[..|rows| - 1], m) + Amount(prices, rows[|rows| - 1], m)
  }

  function Field(l: Line, m: Measure): int {
    match m
    case Requests => l.requests
    case Tokens(c) => Count(l.tokens, c)
    case Reasoning => l.tokens.reasoning
    case Cost => l.cost
  }

  ghost predicate AnyPriced(prices: seq<Price>, rows: seq<Attempt>) {
    exists a :: a in rows && PriceAt(prices, a.model, a.occurredAt).Some?
  }

  ghost predicate AllPriced(prices: seq<Price>, rows: seq<Attempt>) {
    forall k :: 0 <= k < |Groups(rows)| ==> AnyPriced(prices, Members(rows, Groups(rows)[k]))
  }

  ghost predicate LineOk(prices: seq<Price>, rows: seq<Attempt>, g: Group, l: Line) {
    l.group == g && forall m :: Field(l, m) == Total(prices, Members(rows, g), m)
  }

  ghost predicate Reports(prices: seq<Price>, rows: seq<Attempt>, out: seq<Line>) {
    && |out| == |Groups(rows)|
    && forall k :: 0 <= k < |out| ==> LineOk(prices, rows, Groups(rows)[k], out[k])
  }

  /** What the report on a table is. */
  ghost predicate ReportOf(prices: seq<Price>, attempts: seq<Attempt>, filter: Attempt -> bool,
                           r: Result<seq<Line>, ReportError>)
  {
    var rows := Selected(attempts, filter);
    && (r.Ok? <==> AllPriced(prices, rows))
    && (r.Ok? ==> Reports(prices, rows, r.value))
  }

  /** The lines of the first groups, all of them priced. */
  ghost predicate ReportsSoFar(prices: seq<Price>, rows: seq<Attempt>, out: seq<Line>) {
    && |out| <= |Groups(rows)|
    && forall k :: 0 <= k < |out| ==>
         LineOk(prices, rows, Groups(rows)[k], out[k]) && AnyPriced(prices, Members(rows, Groups(rows)[k]))
  }

  lemma OneMoreLine(prices: seq<Price>, rows: seq<Attempt>, out: seq<Line>, l: Line)
    requires ReportsSoFar(prices, rows, out) && |out| < |Groups(rows)|
    requires LineOk(prices, rows, Groups(rows)[|out|], l) && AnyPriced(prices, Members(rows, Groups(rows)[|out|]))
    ensures ReportsSoFar(prices, rows, out + [l])
  {
  }

  lemma {:induction false} SumCellsMeaning(prices: seq<Price>, rows: seq<Attempt>, c: Column)
    ensures SumCells(prices, rows, c).Some? <==> AnyPriced(prices, rows)
  {
    if rows != [] {
      var before, last := rows[..|rows| - 1], rows[|rows| - 1];
      SumCellsMeaning(prices, before, c);
      assert rows == before + [last];
      assert AnyPriced(prices, rows) <==>
             AnyPriced(prices, before) || PriceAt(prices, last.model, last.occurredAt).Some? by {
        assert last in rows;
        assert forall a :: a in rows <==> a in before || a == last;
      }
    }
  }

  function Plain(o: Option<int>): int {
    if o.Some? then o.value else 0
  }

  lemma {:induction false} CellsAddUp(prices: seq<Price>, rows: seq<Attempt>)
    ensures Plain(SumCells(prices, rows, Input)) + Plain(SumCells(prices, rows, Output))
            + Plain(SumCells(prices, rows, CacheRead)) + Plain(SumCells(prices, rows, CacheWrite))
            == Total(prices, rows, Cost)
  {
    if rows != [] {
      CellsAddUp(prices, rows[..|rows| - 1]);
    }
  }

  /** Four null-skipping sums of products come to the sum of the charges, or all four are null. */
  lemma ColumnsAddUp(prices: seq<Price>, rows: seq<Attempt>)
    ensures Columns(prices, rows) == if AnyPriced(prices, rows) then Some(Total(prices, rows, Cost)) else None
  {
    CellsAddUp(prices, rows);
    SumCellsMeaning(prices, rows, Input);
    SumCellsMeaning(prices, rows, Output);
    SumCellsMeaning(prices, rows, CacheRead);
    SumCellsMeaning(prices, rows, CacheWrite);
  }

  lemma {:induction false} TokensAddUp(prices: seq<Price>, rows: seq<Attempt>)
    ensures Total(prices, rows, Requests) == |rows| && Total(prices, rows, Reasoning) == SumTokens(rows).reasoning
    ensures forall c :: Total(prices, rows, Tokens(c)) == Count(SumTokens(rows), c)
  {
    if rows != [] {
      TokensAddUp(prices, rows[..|rows| - 1]);
    }
  }

  lemma LineTotals(prices: seq<Price>, rows: seq<Attempt>, g: Group, l: Line)
    requires l == Summarise(Members(rows, g), g, Total(prices, Members(rows, g), Cost))
    ensures LineOk(prices, rows, g, l)
  {
    TokensAddUp(prices, Members(rows, g));
  }

  // ---- conservation ----

  function OverGroups(prices: seq<Price>, rows: seq<Attempt>, gs: seq<Group>, m: Measure): int
    decreases |gs|
  {
    if gs == [] then 0
    else OverGroups(prices, rows, gs[..|gs| - 1], m) + Total(prices, Members(rows, gs[|gs| - 1]), m)
  }

  function OverLines(out: seq<Line>, m: Measure): int {
    if out == [] then 0 else OverLines(out[..|out| - 1], m) + Field(out[|out| - 1], m)
  }

  ghost predicate Distinct(gs: seq<Group>) {
    forall i, j :: 0 <= i < j < |gs| ==> gs[i] != gs[j]
  }

  lemma {:induction false} GroupsDistinct(rows: seq<Attempt>)
    ensures Distinct(Groups(rows))
  {
    if rows != [] {
      GroupsDistinct(rows[..|rows| - 1]);
    }
  }

  lemma {:induction false} GroupsCover(rows: seq<Attempt>)
    ensures forall g :: g in Groups(rows) <==> exists a :: a in rows && GroupOf(a) == g
  {
    if rows != [] {
      var before, last := rows[..|rows| - 1], rows[|rows| - 1];
      GroupsCover(before);
      assert rows == before + [last];
      assert forall a :: a in rows <==> a in before || a == last;
      assert last in rows;
    }
  }

  lemma {:induction false} RowIntoGroups(prices: seq<Price>, rows: seq<Attempt>, a: Attempt, gs: seq<Group>, m: Measure)
    requires Distinct(gs)
    ensures OverGroups(prices, rows + [a], gs, m)
            == OverGroups(prices, rows, gs, m) + if GroupOf(a) in gs then Amount(prices, a, m) else 0
    decreases |gs|
  {
    if gs != [] {
      var before, g := gs[..|gs| - 1], gs[|gs| - 1];
      RowIntoGroups(prices, rows, a, before, m);
      assert gs == before + [g];
      assert (rows + [a])[..|rows|] == rows;
      var members := Members(rows, g);
      assert (members + [a])[..|members|] == members;
      if GroupOf(a) == g {
        assert g !in before;
        assert Members(rows + [a], g) == members + [a];
      } else {
        assert Members(rows + [a], g) == members;
      }
    }
  }

  lemma {:induction false} EmptyGroup(rows: seq<Attempt>, g: Group)
    requires forall a :: a in rows ==> GroupOf(a) != g
    ensures Members(rows, g) == []
  {
    if rows != [] {
      var before, last := rows[..|rows| - 1], rows[|rows| - 1];
      assert last in rows;
      assert forall a :: a in before ==> a in rows;
      EmptyGroup(before, g);
    }
  }

  /** The groups' totals add up to the ungrouped total, for every measure. */
  lemma GroupsAddUp(prices: seq<Price>, rows: seq<Attempt>, m: Measure)
    ensures OverGroups(prices, rows, Groups(rows), m) == Total(prices, rows, m)
  {
    for i := 0 to |rows|
      invariant OverGroups(prices, rows[..i], Groups(rows[..i]), m) == Total(prices, rows[..i], m)
    {
      Snoc(rows, i);
      OneMoreRow(prices, rows[..i], rows[i], rows[..i + 1], m);
    }
    assert rows[..|rows|] == rows;
  }

  lemma OneMoreRow(prices: seq<Price>, rows: seq<Attempt>, a: Attempt, all: seq<Attempt>, m: Measure)
    requires all == rows + [a]
    ensures OverGroups(prices, all, Groups(all), m) == OverGroups(prices, rows, Groups(rows), m) + Amount(prices, a, m)
    ensures Total(prices, all, m) == Total(prices, rows, m) + Amount(prices, a, m)
  {
    var gs, g := Groups(rows), GroupOf(a);
    assert all[..|rows|] == rows && all[|rows|] == a;
    GroupsDistinct(rows);
    RowIntoGroups(prices, rows, a, gs, m);
    if g in gs {
      assert Groups(all) == gs;
    } else {
      assert Groups(all) == gs + [g];
      NewGroup(prices, rows, a, gs, m);
    }
  }

  /** The first attempt of a group adds a group of its own. */
  lemma NewGroup(prices: seq<Price>, rows: seq<Attempt>, a: Attempt, gs: seq<Group>, m: Measure)
    requires GroupOf(a) !in Groups(rows)
    ensures OverGroups(prices, rows + [a], gs + [GroupOf(a)], m)
            == OverGroups(prices, rows + [a], gs, m) + Amount(prices, a, m)
  {
    var g := GroupOf(a);
    GroupsCover(rows);
    EmptyGroup(rows, g);
    assert (rows + [a])[..|rows|] == rows;
    assert Members(rows + [a], g) == [a];
    assert Total(prices, [a], m) == Amount(prices, a, m);
    assert (gs + [g])[..|gs|] == gs;
  }

  lemma {:induction false} LinesAreGroups(prices: seq<Price>, rows: seq<Attempt>, gs: seq<Group>, out: seq<Line>,
                                          m: Measure)
    requires |out| == |gs| && forall k :: 0 <= k < |out| ==> LineOk(prices, rows, gs[k], out[k])
    ensures OverLines(out, m) == OverGroups(prices, rows, gs, m)
    decreases |gs|
  {
    if gs != [] {
      LinesAreGroups(prices, rows, gs[..|gs| - 1], out[..|out| - 1], m);
      assert LineOk(prices, rows, gs[|gs| - 1], out[|out| - 1]);
    }
  }

  /** A report loses nothing and counts nothing twice: over its lines, requests, tokens and cost add up
      to those of all the selected attempts. */
  lemma ReportConserves(prices: seq<Price>, rows: seq<Attempt>, out: seq<Line>, m: Measure)
    requires Reports(prices, rows, out)
    ensures OverLines(out, m) == Total(prices, rows, m)
  {
    LinesAreGroups(prices, rows, Groups(rows), out, m);
    GroupsAddUp(prices, rows, m);
  }

  // ---- a price for the future ----

  ghost predicate TakesEffectAfter(p: Price, rows: seq<Attempt>) {
    forall a :: a in rows && a.model == p.model ==> a.occurredAt < p.effectiveAt
  }

  lemma {:induction false} TotalKeepsPrice(prices: seq<Price>, p: Price, rows: seq<Attempt>, m: Measure)
    requires TakesEffectAfter(p, rows)
    ensures Total(prices + [p], rows, m) == Total(prices, rows, m)
    decreases |rows|
  {
    if rows != [] {
      var before, last := rows[..|rows| - 1], rows[|rows| - 1];
      assert forall a :: a in before ==> a in rows;
      TotalKeepsPrice(prices, p, before, m);
      assert last in rows;
      assert (prices + [p])[..|prices|] == prices;
    }
  }

  lemma {:induction false} MembersAreRows(rows: seq<Attempt>, g: Group)
    ensures forall a :: a in Members(rows, g) <==> a in rows && GroupOf(a) == g
  {
    if rows != [] {
      var before, last := rows[..|rows| - 1], rows[|rows| - 1];
      MembersAreRows(before, g);
      assert rows == before + [last];
    }
  }

  /** A price version that takes effect after every selected attempt of its model changes neither
      whether there is a report nor any line of it. */
  lemma FuturePriceChangesNothing(prices: seq<Price>, p: Price, rows: seq<Attempt>, out: seq<Line>)
    requires TakesEffectAfter(p, rows)
    ensures Reports(prices + [p], rows, out) <==> Reports(prices, rows, out)
    ensures AllPriced(prices + [p], rows) <==> AllPriced(prices, rows)
  {
    assert (prices + [p])[..|prices|] == prices;
    forall g, m
      ensures Total(prices + [p], Members(rows, g), m) == Total(prices, Members(rows, g), m)
    {
      MembersAreRows(rows, g);
      TotalKeepsPrice(prices, p, Members(rows, g), m);
    }
    forall g, l ensures LineOk(prices + [p], rows, g, l) <==> LineOk(prices, rows, g, l) {
    }
    forall g ensures AnyPriced(prices + [p], Members(rows, g)) <==> AnyPriced(prices, Members(rows, g)) {
      MembersAreRows(rows, g);
    }
  }

  // ---- histories of the attempts table ----

  datatype Op = Begin(start: Start) | End(finish: Finish, now: int)

  function Step(rows: seq<Attempt>, op: Op): seq<Attempt> {
    match op
    case Begin(a) => rows + if Present(rows, a.key) then [] else [NewRow(a)]
    case End(f, now) => CloseAll(rows, f, now)
  }

  function After(h: seq<Op>): seq<Attempt> {
    if h == [] then [] else Step(After(h[..|h| - 1]), h[|h| - 1])
  }

  lemma {:induction false} CloseAllMeaning(rows: seq<Attempt>, f: Finish, now: int)
    ensures var r := CloseAll(rows, f, now);
            && |r| == |rows|
            && (forall i :: 0 <= i < |rows| ==>
                  r[i] == if rows[i].key == f.key then Closed(rows[i], f, now) else rows[i])
            && (forall i :: 0 <= i < |rows| ==> r[i].key == rows[i].key)
  {
    if rows != [] {
      CloseAllMeaning(rows[..|rows| - 1], f, now);
    }
  }

  /** What happened to one key: the first start makes its row, every later finish rewrites it, and a
      finish before the start is lost. */
  function Story(h: seq<Op>, key: Key): Option<Attempt> {
    if h == [] then None
    else
      var before := Story(h[..|h| - 1], key);
      match h[|h| - 1]
      case Begin(a) => if a.key == key && before.None? then Some(NewRow(a)) else before
      case End(f, now) => if f.key == key && before.Some? then Some(Closed(before.value, f, now)) else before
  }

  ghost predicate RowIs(rows: seq<Attempt>, key: Key, story: Option<Attempt>) {
    && (story.Some? <==> Present(rows, key))
    && forall i :: 0 <= i < |rows| && rows[i].key == key ==> Some(rows[i]) == story
  }

  /** After any calls, each key has at most one row, and it tells the story of that key alone; so no
      attempt is ever billed twice. */
  lemma {:induction false} RowTellsStory(h: seq<Op>, key: Key)
    ensures KeysUnique(After(h)) && RowIs(After(h), key, Story(h, key))
  {
    if h != [] {
      var before := h[..|h| - 1];
      RowTellsStory(before, key);
      match h[|h| - 1]
      case Begin(a) => BeginTells(After(before), a, key, Story(before, key));
      case End(f, now) => EndTells(After(before), f, now, key, Story(before, key));
    }
  }

  /** The start that made the row of a key, the last finish since, and the last model named by either. */
  function FirstStart(h: seq<Op>, key: Key): Option<Start> {
    if h == [] then None
    else
      var earlier := FirstStart(h[..|h| - 1], key);
      if earlier.Some? then earlier
      else
        match h[|h| - 1]
        case Begin(a) => if a.key == key then Some(a) else None
        case End(_, _) => None
  }

  predicate Finishes(h: seq<Op>, key: Key)
    requires h != []
  {
    h[|h| - 1].End? && h[|h| - 1].finish.key == key && FirstStart(h[..|h| - 1], key).Some?
  }

  function LastFinish(h: seq<Op>, key: Key): Option<Finish> {
    if h == [] then None
    else if Finishes(h, key) then Some(h[|h| - 1].finish)
    else LastFinish(h[..|h| - 1], key)
  }

  function LastModel(h: seq<Op>, key: Key): string {
    if h == [] then ""
    else if Finishes(h, key) && h[|h| - 1].finish.model != "" then h[|h| - 1].finish.model
    else if FirstStart(h, key).Some? && FirstStart(h[..|h| - 1], key).None? then FirstStart(h, key).value.model
    else LastModel(h[..|h| - 1], key)
  }

  /** The columns of a row: some come from its start, the others from its finishes. */
  ghost predicate ColumnsFrom(row: Attempt, a: Start, f: Option<Finish>, model: string) {
    && row.key == a.key && row.provider == a.provider && row.account == a.account && row.project == a.project
    && row.occurredAt == a.occurredAt && row.model == model
    && row.outcome == (if f.Some? then f.value.outcome else Started)
    && row.usage == (if f.Some? then f.value.usage else Usage(0, 0, 0, 0, 0))
  }

  lemma {:induction false} StoryTold(h: seq<Op>, key: Key)
    ensures Story(h, key).Some? <==> FirstStart(h, key).Some?
    ensures Story(h, key).None? ==> LastFinish(h, key).None?
    ensures Story(h, key).Some? ==>
              && FirstStart(h, key).value.key == key
              && ColumnsFrom(Story(h, key).value, FirstStart(h, key).value, LastFinish(h, key), LastModel(h, key))
  {
    if h != [] {
      StoryTold(h[..|h| - 1], key);
    }
  }

  /** After any calls there is a row for a key exactly when it was started, and its columns are those of the
      first start, of the last finish after it, and of whichever named a model last. */
  lemma RowTold(h: seq<Op>, key: Key)
    ensures Present(After(h), key) <==> FirstStart(h, key).Some?
    ensures forall i :: 0 <= i < |After(h)| && After(h)[i].key == key ==>
              && FirstStart(h, key).Some?
              && ColumnsFrom(After(h)[i], FirstStart(h, key).value, LastFinish(h, key), LastModel(h, key))
  {
    RowTellsStory(h, key);
    StoryTold(h, key);
  }

  lemma BeginTells(rows: seq<Attempt>, a: Start, key: Key, story: Option<Attempt>)
    requires KeysUnique(rows) && RowIs(rows, key, story)
    ensures KeysUnique(Step(rows, Begin(a)))
    ensures RowIs(Step(rows, Begin(a)), key, if a.key == key && story.None? then Some(NewRow(a)) else story)
  {
    if !Present(rows, a.key) {
      var all := rows + [NewRow(a)];
      assert all[|rows|].key == a.key;
      assert forall i :: 0 <= i < |rows| ==> all[i] == rows[i];
      assert Present(all, key) <==> Present(rows, key) || a.key == key by {
        if Present(rows, key) {
          var i :| 0 <= i < |rows| && rows[i].key == key;
          assert all[i].key == key;
        }
      }
    }
  }

  lemma EndTells(rows: seq<Attempt>, f: Finish, now: int, key: Key, story: Option<Attempt>)
    requires KeysUnique(rows) && RowIs(rows, key, story)
    ensures KeysUnique(CloseAll(rows, f, now))
    ensures RowIs(CloseAll(rows, f, now), key,
                  if f.key == key && story.Some? then Some(Closed(story.value, f, now)) else story)
  {
    CloseAllMeaning(rows, f, now);
    var all := CloseAll(rows, f, now);
    assert Present(all, key) <==> Present(rows, key) by {
      if Present(rows, key) {
        var i :| 0 <= i < |rows| && rows[i].key == key;
        assert all[i].key == key;
      }
    }
  }

  // ---- repeated calls ----

  /** Rows that differ only in the time of their last finish. */
  ghost predicate SameBilling(a: seq<Attempt>, b: seq<Attempt>) {
    |a| == |b| && forall i :: 0 <= i < |a| ==> a[i] == b[i].(finishedAt := a[i].finishedAt)
  }

  /** A filter that does not look at the time of the last finish. */
  ghost predicate Blind(filter: Attempt -> bool) {
    forall a: Attempt, t: int :: filter(a.(finishedAt := t)) == filter(a)
  }

  ghost predicate Billed(rows: seq<Attempt>, f: Finish) {
    && Present(rows, f.key)
    && forall i :: 0 <= i < |rows| && rows[i].key == f.key ==>
         rows[i].outcome == f.outcome && rows[i].usage == f.usage && (f.model != "" ==> rows[i].model == f.model)
  }

  lemma BilledStays(rows: seq<Attempt>, f: Finish, op: Op)
    requires Billed(rows, f)
    requires op.End? && op.finish.key == f.key ==> op.finish == f
    ensures Billed(Step(rows, op), f)
  {
    var i :| 0 <= i < |rows| && rows[i].key == f.key;
    match op
    case Begin(a) =>
      assert Step(rows, op)[i].key == f.key;
    case End(g, now) =>
      CloseAllMeaning(rows, g, now);
      assert CloseAll(rows, g, now)[i].key == f.key;
  }

  lemma FinishBills(rows: seq<Attempt>, f: Finish, now: int)
    requires Present(rows, f.key)
    ensures Billed(CloseAll(rows, f, now), f)
  {
    CloseAllMeaning(rows, f, now);
    var i :| 0 <= i < |rows| && rows[i].key == f.key;
    assert CloseAll(rows, f, now)[i].key == f.key;
  }

  lemma {:induction false} StillBilled(h: seq<Op>, i: nat)
    requires i < |h| && h[i].End? && Present(After(h[..i]), h[i].finish.key)
    requires forall j :: i < j < |h| && h[j].End? && h[j].finish.key == h[i].finish.key ==> h[j].finish == h[i].finish
    ensures Billed(After(h), h[i].finish)
    decreases |h|
  {
    var n := |h| - 1;
    if i == n {
      FinishBills(After(h[..n]), h[i].finish, h[i].now);
    } else {
      assert h[..n][..i] == h[..i];
      StillBilled(h[..n], i);
      BilledStays(After(h[..n]), h[i].finish, h[n]);
    }
  }

  lemma AfterSnoc(h: seq<Op>, op: Op)
    ensures After(h + [op]) == Step(After(h), op)
  {
    TakeAppend(h, [op]);
  }

  /** Repeating a finish that was accepted, with the same payload and at any later time, changes no
      billed column of any row, if no other payload was submitted for that attempt in between. */
  lemma FinishAgain(h: seq<Op>, i: nat, now: int)
    requires i < |h| && h[i].End? && Present(After(h[..i]), h[i].finish.key)
    requires forall j :: i < j < |h| && h[j].End? && h[j].finish.key == h[i].finish.key ==> h[j].finish == h[i].finish
    ensures SameBilling(After(h + [End(h[i].finish, now)]), After(h))
  {
    var f := h[i].finish;
    StillBilled(h, i);
    AlreadyBilled(After(h), f, now);
    AfterSnoc(h, End(f, now));
  }

  /** At any moment a finish leaves every billed column alone exactly when its attempt has no row, or
      the row already shows this payload. */
  lemma FinishIdleExactly(rows: seq<Attempt>, f: Finish, now: int)
    ensures SameBilling(CloseAll(rows, f, now), rows) <==> !Present(rows, f.key) || Billed(rows, f)
  {
    CloseAllMeaning(rows, f, now);
    if SameBilling(CloseAll(rows, f, now), rows) {
      forall i | 0 <= i < |rows| && rows[i].key == f.key
        ensures rows[i].outcome == f.outcome && rows[i].usage == f.usage && (f.model != "" ==> rows[i].model == f.model)
      {
        assert CloseAll(rows, f, now)[i] == rows[i].(finishedAt := now);
      }
    }
  }

  lemma AlreadyBilled(rows: seq<Attempt>, f: Finish, now: int)
    requires Billed(rows, f)
    ensures SameBilling(CloseAll(rows, f, now), rows)
  {
    CloseAllMeaning(rows, f, now);
  }

  lemma StepPresent(rows: seq<Attempt>, op: Op, key: Key)
    ensures Present(Step(rows, op), key) <==> Present(rows, key) || (op.Begin? && op.start.key == key)
  {
    match op
    case Begin(a) =>
      var all := Step(rows, op);
      assert forall i :: 0 <= i < |rows| ==> all[i] == rows[i];
      if !Present(rows, a.key) {
        assert all[|rows|].key == a.key;
      }
      if Present(rows, key) {
        var i :| 0 <= i < |rows| && rows[i].key == key;
        assert all[i].key == key;
      }
    case End(f, now) =>
      CloseAllMeaning(rows, f, now);
      if Present(rows, key) {
        var i :| 0 <= i < |rows| && rows[i].key == key;
        assert CloseAll(rows, f, now)[i].key == key;
      }
  }

  lemma {:induction false} StillPresent(h: seq<Op>, i: nat)
    requires i < |h| && h[i].Begin?
    ensures Present(After(h), h[i].start.key)
    decreases |h|
  {
    var n := |h| - 1;
    StepPresent(After(h[..n]), h[n], h[i].start.key);
    if i < n {
      StillPresent(h[..n], i);
    }
  }

  /** Repeating a start changes nothing, whatever came in between. */
  lemma StartAgain(h: seq<Op>, i: nat, again: Start)
    requires i < |h| && h[i].Begin? && again.key == h[i].start.key
    ensures After(h + [Begin(again)]) == After(h)
  {
    StillPresent(h, i);
    assert (h + [Begin(again)])[..|h|] == h;
  }

  lemma AlikeSnoc(a: seq<Attempt>, b: seq<Attempt>, x: Attempt, y: Attempt)
    requires SameBilling(a, b) && x == y.(finishedAt := x.finishedAt)
    ensures SameBilling(a + [x], b + [y])
  {
  }

  lemma {:induction false} SelectedAlike(a: seq<Attempt>, b: seq<Attempt>, filter: Attempt -> bool)
    requires SameBilling(a, b) && Blind(filter)
    ensures SameBilling(Selected(a, filter), Selected(b, filter))
    decreases |a|
  {
    if a != [] {
      var n := |a| - 1;
      assert a[n] == b[n].(finishedAt := a[n].finishedAt);
      SelectedAlike(a[..n], b[..n], filter);
      assert filter(a[n]) == filter(b[n]);
      AlikeSnoc(Selected(a[..n], filter), Selected(b[..n], filter), a[n], b[n]);
    }
  }

  lemma {:induction false} MembersAlike(a: seq<Attempt>, b: seq<Attempt>, g: Group)
    requires SameBilling(a, b)
    ensures SameBilling(Members(a, g), Members(b, g)) && Groups(a) == Groups(b)
    decreases |a|
  {
    if a != [] {
      var n := |a| - 1;
      assert a[n] == b[n].(finishedAt := a[n].finishedAt);
      MembersAlike(a[..n], b[..n], g);
      AlikeSnoc(Members(a[..n], g), Members(b[..n], g), a[n], b[n]);
    }
  }

  lemma {:induction false} TotalAlike(prices: seq<Price>, a: seq<Attempt>, b: seq<Attempt>, m: Measure)
    requires SameBilling(a, b)
    ensures Total(prices, a, m) == Total(prices, b, m)
    decreases |a|
  {
    if a != [] {
      var n := |a| - 1;
      assert a[n] == b[n].(finishedAt := a[n].finishedAt);
      TotalAlike(prices, a[..n], b[..n], m);
    }
  }

  /** Such rows have the same reports. */
  lemma ReportsAlike(prices: seq<Price>, a: seq<Attempt>, b: seq<Attempt>, filter: Attempt -> bool, out: seq<Line>)
    requires SameBilling(a, b) && Blind(filter)
    ensures Reports(prices, Selected(a, filter), out) <==> Reports(prices, Selected(b, filter), out)
  {
    SelectedAlike(a, b, filter);
    var s, t := Selected(a, filter), Selected(b, filter);
    forall g, m ensures Groups(s) == Groups(t) && Total(prices, Members(s, g), m) == Total(prices, Members(t, g), m) {
      MembersAlike(s, t, g);
      TotalAlike(prices, Members(s, g), Members(t, g), m);
    }
    MembersAlike(s, t, Group("", "", "", ""));
    forall g, l ensures LineOk(prices, s, g, l) <==> LineOk(prices, t, g, l) {
    }
  }
}
