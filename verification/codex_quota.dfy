/** Quota observations read from response headers, which come in no particular order. */
module CodexQuota {
  import opened Prelude

  const PREFIX := "x-codex-"

  /** A parsed number: a real one, an infinity, or not a number. */
  datatype Float = Finite(value: real) | Infinite(positive: bool) | NotANumber

  /** Comparisons with NotANumber are false. */
  predicate Below(v: Float, x: real) {
    match v
    case Finite(y) => y < x
    case Infinite(positive) => !positive
    case NotANumber => false
  }

  predicate Above(v: Float, x: real) {
    match v
    case Finite(y) => y > x
    case Infinite(positive) => positive
    case NotANumber => false
  }

  /** x - v */
  function Minus(x: real, v: Float): Float {
    match v
    case Finite(y) => Finite(x - y)
    case Infinite(positive) => Infinite(!positive)
    case NotANumber => NotANumber
  }

  /** The text routines of the standard library that the parser calls. */
  datatype Texts = Texts(trim: string -> string, lower: string -> string, float: string -> Option<Float>,
                         atoi: string -> Option<int>, int64: string -> Option<int>, time: string -> Option<int>)

  /** A value that was skipped: the header's field, and the length of the value. */
  datatype Warning = Warning(field: string, length: nat)

  /** None is a value the upstream did not give. */
  datatype Snapshot = Snapshot(limit: string, used: Option<Float>, minutes: Option<int>, resetAfter: Option<int>,
                               resetAt: Option<int>, rawResetAt: string, allowed: Option<bool>, reached: Option<bool>)

  datatype Observation = Observation(plan: string, active: string, snapshots: seq<Snapshot>, warnings: seq<Warning>)

  function Blank(limit: string): Snapshot {
    Snapshot(limit, None, None, None, None, "", None, None)
  }

  // ---- header names ----

  datatype Field = UsedPercent | WindowMinutes | ResetAfterSeconds | ResetAt | Allowed | LimitReached

  const FIELDS := [UsedPercent, WindowMinutes, ResetAfterSeconds, ResetAt, Allowed, LimitReached]

  function Suffix(f: Field): string {
    match f
    case UsedPercent => "-used-percent"
    case WindowMinutes => "-window-minutes"
    case ResetAfterSeconds => "-reset-after-seconds"
    case ResetAt => "-reset-at"
    case Allowed => "-allowed"
    case LimitReached => "-limit-reached"
  }

  predicate HasSuffix(s: string, suffix: string) {
    |suffix| <= |s| && s[|s| - |suffix|..] == suffix
  }

  predicate HasPrefix(s: string, prefix: string) {
    |prefix| <= |s| && s[..|prefix|] == prefix
  }

  /** What precedes the suffix of the first field that fits, from the i-th on. */
  function SplitFrom(rest: string, i: nat): Option<(string, Field)>
    decreases |FIELDS| - i
  {
    if i >= |FIELDS| then None
    else if HasSuffix(rest, Suffix(FIELDS[i])) then Some((rest[..|rest| - |Suffix(FIELDS[i])|], FIELDS[i]))
    else SplitFrom(rest, i + 1)
  }

  method SplitWindowField(rest: string) returns (r: Option<(string, Field)>)
    ensures forall limit, f :: r == Some((limit, f)) <==> rest == limit + Suffix(f)
  {
    for i := 0 to |FIELDS|
      invariant SplitFrom(rest, 0) == SplitFrom(rest, i)
    {
      if HasSuffix(rest, Suffix(FIELDS[i])) {
        SplitMeaning(rest);
        return Some((rest[..|rest| - |Suffix(FIELDS[i])|], FIELDS[i]));
      }
    }
    SplitMeaning(rest);
    return None;
  }

  function Tail(s: string): string {
    if |s| < 3 then s else s[|s| - 3..]
  }

  lemma TailOfSuffix(rest: string, f: Field)
    requires HasSuffix(rest, Suffix(f))
    ensures Tail(rest) == Tail(Suffix(f))
  {
    var s := Suffix(f);
    assert |s| >= 3;
    assert s[|s| - 3..] == rest[|rest| - 3..];
  }

  /** No name ends in two of the suffixes. */
  lemma SuffixUnambiguous(rest: string, f: Field, g: Field)
    requires HasSuffix(rest, Suffix(f)) && HasSuffix(rest, Suffix(g))
    ensures f == g
  {
    TailOfSuffix(rest, f);
    TailOfSuffix(rest, g);
    assert Tail(Suffix(UsedPercent)) == "ent" && Tail(Suffix(WindowMinutes)) == "tes";
    assert Tail(Suffix(ResetAfterSeconds)) == "nds" && Tail(Suffix(ResetAt)) == "-at";
    assert Tail(Suffix(Allowed)) == "wed" && Tail(Suffix(LimitReached)) == "hed";
  }

  lemma FieldListed(f: Field) returns (i: nat)
    ensures i < |FIELDS| && FIELDS[i] == f
  {
    match f
    case UsedPercent => i := 0;
    case WindowMinutes => i := 1;
    case ResetAfterSeconds => i := 2;
    case ResetAt => i := 3;
    case Allowed => i := 4;
    case LimitReached => i := 5;
  }

  lemma {:induction false} SplitFromMeaning(rest: string, i: nat)
    requires i <= |FIELDS|
    ensures SplitFrom(rest, i).Some? ==>
              var (limit, f) := SplitFrom(rest, i).value; rest == limit + Suffix(f)
    decreases |FIELDS| - i
  {
    if i < |FIELDS| {
      if HasSuffix(rest, Suffix(FIELDS[i])) {
        Stripped(rest, Suffix(FIELDS[i]));
      } else {
        SplitFromMeaning(rest, i + 1);
      }
    }
  }

  lemma {:induction false} SplitFinds(rest: string, i: nat, k: nat)
    requires i <= k < |FIELDS| && HasSuffix(rest, Suffix(FIELDS[k]))
    ensures SplitFrom(rest, i).Some?
    decreases k - i
  {
    if i < k && !HasSuffix(rest, Suffix(FIELDS[i])) {
      SplitFinds(rest, i + 1, k);
    }
  }

  lemma Stripped(s: string, suffix: string)
    requires HasSuffix(s, suffix)
    ensures s == s[..|s| - |suffix|] + suffix
  {
  }

  /** A name is split in the one way it can be. */
  lemma SplitMeaning(rest: string)
    ensures forall limit, f :: SplitFrom(rest, 0) == Some((limit, f)) <==> rest == limit + Suffix(f)
  {
    SplitFromMeaning(rest, 0);
    forall limit, f | rest == limit + Suffix(f) ensures SplitFrom(rest, 0) == Some((limit, f)) {
      assert rest[|rest| - |Suffix(f)|..] == Suffix(f);
      var i := FieldListed(f);
      SplitFinds(rest, 0, i);
      var (limit', f') := SplitFrom(rest, 0).value;
      assert rest[|rest| - |Suffix(f')|..] == Suffix(f');
      SuffixUnambiguous(rest, f, f');
      assert limit == rest[..|rest| - |Suffix(f)|];
    }
  }

  // ---- what one header does ----

  datatype Effect =
    | Ignored
    | Noticed
    | Skipped(limit: string, warning: Warning)
    | SetPlan(text: string)
    | SetActive(text: string)
    | SetUsed(limit: string, percent: Float)
    | SetMinutes(limit: string, minutes: int)
    | SetResetAfter(limit: string, seconds: int)
    | SetResetAt(limit: string, time: int)
    | SetRawResetAt(limit: string, text: string)
    | SetAllowed(limit: string, flag: Option<bool>)
    | SetReached(limit: string, flag: Option<bool>)
  {
    predicate OnWindow() { !Ignored? && !Noticed? && !SetPlan? && !SetActive? }
  }

  function ParseBool(t: Texts, value: string): Option<bool> {
    var v := t.lower(value);
    if v == "true" || v == "1" || v == "yes" then Some(true)
    else if v == "false" || v == "0" || v == "no" then Some(false)
    else None
  }

  function FieldEffect(t: Texts, limit: string, f: Field, value: string): Effect {
    var skipped := Skipped(limit, Warning(limit + Suffix(f), |value|));
    match f
    case UsedPercent =>
      var v := t.float(value);
      if v.None? || Below(v.value, 0.0) || Above(v.value, 100.0) then skipped else SetUsed(limit, v.value)
    case WindowMinutes =>
      var v := t.atoi(value);
      if v.None? || v.value <= 0 then skipped else SetMinutes(limit, v.value)
    case ResetAfterSeconds =>
      var v := t.int64(value);
      if v.None? || v.value < 0 then skipped else SetResetAfter(limit, v.value)
    case ResetAt =>
      var v := t.time(value);
      if v.Some? then SetResetAt(limit, v.value) else SetRawResetAt(limit, value)
    case Allowed => SetAllowed(limit, ParseBool(t, value))
    case LimitReached => SetReached(limit, ParseBool(t, value))
  }

  function Normal(t: Texts, name: string): string {
    t.lower(t.trim(name))
  }

  /** One entry of the header map. */
  datatype Header = Header(name: string, values: seq<string>)

  function EffectOf(t: Texts, x: Header): Effect {
    if |x.values| == 0 || !HasPrefix(Normal(t, x.name), PREFIX) then Ignored
    else
      var rest := Normal(t, x.name)[|PREFIX|..];
      var value := t.trim(x.values[|x.values| - 1]);
      if rest == "plan-type" then SetPlan(value)
      else if rest == "active-limit" then SetActive(value)
      else
        match SplitFrom(rest, 0)
        case None => Noticed
        case Some((limit, f)) => FieldEffect(t, limit, f, value)
  }

  // ---- what many headers do, in an order ----

  datatype Acc = Acc(found: bool, plan: string, active: string, byLimit: map<string, Snapshot>,
                     warnings: multiset<Warning>)

  const NOTHING := Acc(false, "", "", map[], multiset{})

  function At(byLimit: map<string, Snapshot>, limit: string): Snapshot {
    if limit in byLimit then byLimit[limit] else Blank(limit)
  }

  function Put(s: Snapshot, x: Effect): Snapshot {
    match x
    case SetUsed(_, percent) => s.(used := Some(percent))
    case SetMinutes(_, minutes) => s.(minutes := Some(minutes))
    case SetResetAfter(_, seconds) => s.(resetAfter := Some(seconds))
    case SetResetAt(_, time) => s.(resetAt := Some(time))
    case SetRawResetAt(_, text) => s.(rawResetAt := text)
    case SetAllowed(_, flag) => s.(allowed := flag)
    case SetReached(_, flag) => s.(reached := flag)
    case _ => s
  }

  function Warned(x: Effect): multiset<Warning> {
    if x.Skipped? then multiset{x.warning} else multiset{}
  }

  function Window(byLimit: map<string, Snapshot>, x: Effect): map<string, Snapshot>
    requires x.OnWindow()
  {
    byLimit[x.limit := Put(At(byLimit, x.limit), x)]
  }

  function Apply(acc: Acc, x: Effect): Acc {
    match x
    case Ignored => acc
    case Noticed => acc.(found := true)
    case SetPlan(text) => acc.(found := true, plan := text)
    case SetActive(text) => acc.(found := true, active := text)
    case _ =>
      acc.(found := true, byLimit := Window(acc.byLimit, x), warnings := acc.warnings + Warned(x))
  }

  function Fold(t: Texts, xs: seq<Header>): Acc {
    if xs == [] then NOTHING else Apply(Fold(t, xs[..|xs| - 1]), EffectOf(t, xs[|xs| - 1]))
  }

  /** The place an effect writes to. */
  datatype Place = Nowhere | Plan | Active | Used(limit: string) | Minutes(limit: string) | After(limit: string)
                 | Reset(limit: string) | RawReset(limit: string) | Allow(limit: string) | Reach(limit: string)

  function PlaceOf(x: Effect): Place {
    match x
    case Ignored => Nowhere
    case Noticed => Nowhere
    case Skipped(_, _) => Nowhere
    case SetPlan(_) => Plan
    case SetActive(_) => Active
    case SetUsed(l, _) => Used(l)
    case SetMinutes(l, _) => Minutes(l)
    case SetResetAfter(l, _) => After(l)
    case SetResetAt(l, _) => Reset(l)
    case SetRawResetAt(l, _) => RawReset(l)
    case SetAllowed(l, _) => Allow(l)
    case SetReached(l, _) => Reach(l)
  }

  /** Two headers that write different values to one place. */
  predicate Clash(x: Effect, y: Effect) {
    x != y && PlaceOf(x) == PlaceOf(y) != Nowhere
  }

  lemma PutsCommute(s: Snapshot, x: Effect, y: Effect)
    requires x.OnWindow() && y.OnWindow() && x.limit == y.limit && !Clash(x, y)
    ensures Put(Put(s, x), y) == Put(Put(s, y), x)
  {
  }

  lemma WindowsCommute(m: map<string, Snapshot>, x: Effect, y: Effect)
    requires x.OnWindow() && y.OnWindow() && !Clash(x, y)
    ensures Window(Window(m, x), y) == Window(Window(m, y), x)
  {
    if x.limit == y.limit {
      PutsCommute(At(m, x.limit), x, y);
      WindowTwice(m, x, y);
      WindowTwice(m, y, x);
    } else {
      UpdateApart(m, x.limit, Put(At(m, x.limit), x), y.limit, Put(At(m, y.limit), y));
    }
  }

  lemma WindowTwice(m: map<string, Snapshot>, x: Effect, y: Effect)
    requires x.OnWindow() && y.OnWindow() && x.limit == y.limit
    ensures Window(Window(m, x), y) == m[x.limit := Put(Put(At(m, x.limit), x), y)]
  {
    UpdateTwice(m, x.limit, Put(At(m, x.limit), x), Put(Put(At(m, x.limit), x), y));
  }

  lemma UpdateTwice(m: map<string, Snapshot>, k: string, u: Snapshot, v: Snapshot)
    ensures m[k := u][k := v] == m[k := v]
  {
  }

  lemma UpdateApart(m: map<string, Snapshot>, k: string, u: Snapshot, l: string, v: Snapshot)
    requires k != l
    ensures m[k := u][l := v] == m[l := v][k := u]
  {
  }

  lemma AppliesCommute(acc: Acc, x: Effect, y: Effect)
    requires !Clash(x, y)
    ensures Apply(Apply(acc, x), y) == Apply(Apply(acc, y), x)
  {
    if x.OnWindow() && y.OnWindow() {
      WindowsCommute(acc.byLimit, x, y);
      assert acc.warnings + Warned(x) + Warned(y) == acc.warnings + Warned(y) + Warned(x);
    }
  }

  lemma ClashMatters(acc: Acc, x: Effect, y: Effect)
    requires Clash(x, y)
    ensures Apply(Apply(acc, x), y) != Apply(Apply(acc, y), x)
  {
    var a, b := Apply(Apply(acc, x), y), Apply(Apply(acc, y), x);
    if x.OnWindow() {
      assert x.limit == y.limit;
      assert a.byLimit[x.limit] != b.byLimit[x.limit];
    }
  }

  ghost predicate Harmless(t: Texts, xs: seq<Header>) {
    forall x, y :: x in xs && y in xs ==> !Clash(EffectOf(t, x), EffectOf(t, y))
  }

  lemma FoldTwo(t: Texts, xs: seq<Header>, x: Header, y: Header)
    ensures Fold(t, xs + [x]) == Apply(Fold(t, xs), EffectOf(t, x))
    ensures Fold(t, xs + [x, y]) == Apply(Apply(Fold(t, xs), EffectOf(t, x)), EffectOf(t, y))
  {
    assert (xs + [x])[..|xs|] == xs;
    assert (xs + [x, y])[..|xs| + 1] == xs + [x];
  }

  /** A header that clashes with none of those after it can be read last. */
  lemma {:induction false} MoveLast(t: Texts, xs: seq<Header>, x: Header, ys: seq<Header>)
    requires forall y :: y in ys ==> !Clash(EffectOf(t, x), EffectOf(t, y))
    ensures Fold(t, xs + [x] + ys) == Apply(Fold(t, xs + ys), EffectOf(t, x))
    decreases |ys|
  {
    if ys == [] {
      assert xs + [x] + ys == xs + [x] && xs + ys == xs;
      FoldTwo(t, xs, x, x);
    } else {
      var n := |ys| - 1;
      var y := ys[n];
      assert (xs + [x] + ys)[..|xs + [x] + ys| - 1] == xs + [x] + ys[..n];
      assert (xs + ys)[..|xs + ys| - 1] == xs + ys[..n];
      MoveLast(t, xs, x, ys[..n]);
      AppliesCommute(Fold(t, xs + ys[..n]), EffectOf(t, x), EffectOf(t, y));
    }
  }

  lemma Locate(x: Header, b: seq<Header>) returns (j: nat)
    requires x in b
    ensures j < |b| && b == b[..j] + [x] + b[j + 1..]
  {
    j :| 0 <= j < |b| && b[j] == x;
  }

  lemma Removed(a: seq<Header>, a': seq<Header>, x: Header, b: seq<Header>, b': seq<Header>)
    requires multiset(a + [x] + a') == multiset(b + [x] + b')
    ensures multiset(a + a') == multiset(b + b')
  {
    assert multiset(a + a') == multiset(a + [x] + a') - multiset{x};
    assert multiset(b + b') == multiset(b + [x] + b') - multiset{x};
  }

  lemma SameMembers(a: seq<Header>, b: seq<Header>)
    requires multiset(a) == multiset(b)
    ensures |a| == |b| && forall x :: x in a <==> x in b
  {
    assert |multiset(a)| == |a| && |multiset(b)| == |b|;
    assert forall x :: x in a <==> x in multiset(a);
    assert forall x :: x in b <==> x in multiset(b);
  }

  lemma HarmlessPart(t: Texts, xs: seq<Header>, part: seq<Header>)
    requires Harmless(t, xs) && forall x :: x in part ==> x in xs
    ensures Harmless(t, part)
  {
  }

  /** Reading x last instead of where it stands. */
  lemma TakenOut(t: Texts, ys: seq<Header>, j: nat)
    requires j < |ys| && Harmless(t, ys)
    ensures Fold(t, ys) == Apply(Fold(t, ys[..j] + ys[j + 1..]), EffectOf(t, ys[j]))
  {
    assert ys == ys[..j] + [ys[j]] + ys[j + 1..];
    assert forall y :: y in ys[j + 1..] ==> y in ys;
    assert ys[j] in ys;
    MoveLast(t, ys[..j], ys[j], ys[j + 1..]);
  }

  lemma HarmlessSame(t: Texts, xs: seq<Header>, ys: seq<Header>)
    requires multiset(xs) == multiset(ys) && Harmless(t, xs)
    ensures Harmless(t, ys) && |xs| == |ys|
  {
    SameMembers(xs, ys);
  }

  lemma Shorter(xs: seq<Header>, ys: seq<Header>) returns (j: nat)
    requires multiset(xs) == multiset(ys) && xs != []
    ensures j < |ys| && ys[j] == xs[|xs| - 1]
    ensures multiset(xs[..|xs| - 1]) == multiset(ys[..j] + ys[j + 1..])
  {
    var n := |xs| - 1;
    SameMembers(xs, ys);
    assert xs[n] in xs;
    j := Locate(xs[n], ys);
    assert xs == xs[..n] + [xs[n]] + [] && xs[..n] + [] == xs[..n];
    Removed(xs[..n], [], xs[n], ys[..j], ys[j + 1..]);
  }

  lemma {:induction false} FoldPermutes(t: Texts, xs: seq<Header>, ys: seq<Header>)
    requires multiset(xs) == multiset(ys) && Harmless(t, xs)
    ensures Fold(t, xs) == Fold(t, ys)
    decreases |xs|
  {
    HarmlessSame(t, xs, ys);
    if xs != [] {
      var j := Shorter(xs, ys);
      HarmlessPart(t, xs, xs[..|xs| - 1]);
      FoldPermutes(t, xs[..|xs| - 1], ys[..j] + ys[j + 1..]);
      TakenOut(t, ys, j);
    }
  }

  ghost predicate OrderIrrelevant(t: Texts, xs: seq<Header>) {
    forall ys :: multiset(ys) == multiset(xs) ==> Fold(t, ys) == Fold(t, xs)
  }

  /** The order of the headers is irrelevant exactly when no two of them write different values to the
      same place. */
  lemma OrderIrrelevantExactly(t: Texts, xs: seq<Header>)
    ensures OrderIrrelevant(t, xs) <==> Harmless(t, xs)
  {
    if Harmless(t, xs) {
      forall ys | multiset(ys) == multiset(xs) ensures Fold(t, ys) == Fold(t, xs) {
        FoldPermutes(t, xs, ys);
      }
    } else {
      var x, y :| x in xs && y in xs && Clash(EffectOf(t, x), EffectOf(t, y));
      var i := Locate(x, xs);
      var one := xs[..i] + xs[i + 1..];
      assert multiset(xs) == multiset(one) + multiset{x};
      assert y in one;
      var j := Locate(y, one);
      var rest := one[..j] + one[j + 1..];
      assert multiset(one) == multiset(rest) + multiset{y};
      LastTwo(t, xs, rest, x, y);
    }
  }

  lemma LastTwo(t: Texts, xs: seq<Header>, rest: seq<Header>, x: Header, y: Header)
    requires Clash(EffectOf(t, x), EffectOf(t, y)) && multiset(rest) + multiset{x} + multiset{y} == multiset(xs)
    ensures !OrderIrrelevant(t, xs)
  {
    PairDiffers(t, rest, x, y);
    PairAdds(rest, x, y);
    PairAdds(rest, y, x);
    Differ(t, xs, rest + [x, y], rest + [y, x]);
  }

  lemma PairDiffers(t: Texts, rest: seq<Header>, x: Header, y: Header)
    requires Clash(EffectOf(t, x), EffectOf(t, y))
    ensures Fold(t, rest + [x, y]) != Fold(t, rest + [y, x])
  {
    FoldTwo(t, rest, x, y);
    FoldTwo(t, rest, y, x);
    ClashMatters(Fold(t, rest), EffectOf(t, x), EffectOf(t, y));
  }

  lemma PairAdds(rest: seq<Header>, x: Header, y: Header)
    ensures multiset(rest + [x, y]) == multiset(rest) + multiset{x} + multiset{y}
  {
  }

  lemma Differ(t: Texts, xs: seq<Header>, a: seq<Header>, b: seq<Header>)
    requires multiset(a) == multiset(xs) && multiset(b) == multiset(xs) && Fold(t, a) != Fold(t, b)
    ensures !OrderIrrelevant(t, xs)
  {
  }

  // ---- distinct names never clash ----

  /** What follows the prefix in the one name that writes to a place. */
  function NameOf(p: Place): string {
    match p
    case Nowhere => ""
    case Plan => "plan-type"
    case Active => "active-limit"
    case Used(l) => l + Suffix(UsedPercent)
    case Minutes(l) => l + Suffix(WindowMinutes)
    case After(l) => l + Suffix(ResetAfterSeconds)
    case Reset(l) => l + Suffix(ResetAt)
    case RawReset(l) => l + Suffix(ResetAt)
    case Allow(l) => l + Suffix(Allowed)
    case Reach(l) => l + Suffix(LimitReached)
  }

  lemma FieldPlace(t: Texts, limit: string, f: Field, value: string)
    ensures var p := PlaceOf(FieldEffect(t, limit, f, value)); p == Nowhere || NameOf(p) == limit + Suffix(f)
  {
  }

  /** The place that a header writes to tells its normalized name. */
  lemma PlaceTellsName(t: Texts, x: Header)
    requires PlaceOf(EffectOf(t, x)) != Nowhere
    ensures Normal(t, x.name) == PREFIX + NameOf(PlaceOf(EffectOf(t, x)))
  {
    var n := Normal(t, x.name);
    var rest := n[|PREFIX|..];
    assert n == PREFIX + rest;
    SplitFromMeaning(rest, 0);
    if rest != "plan-type" && rest != "active-limit" && SplitFrom(rest, 0).Some? {
      var (limit, f) := SplitFrom(rest, 0).value;
      FieldPlace(t, limit, f, t.trim(x.values[|x.values| - 1]));
    }
  }

  type Headers = map<string, seq<string>>

  /** An order in which the headers may be iterated: each of them once. */
  ghost predicate Orders(order: seq<Header>, h: Headers) {
    && (forall x :: x in order <==> x.name in h && h[x.name] == x.values)
    && Once(order)
  }

  ghost predicate Once(order: seq<Header>) {
    forall i, j :: 0 <= i < j < |order| ==> order[i] != order[j]
  }

  ghost predicate DistinctNames(t: Texts, h: Headers) {
    forall n, m :: n in h && m in h && Normal(t, n) == Normal(t, m) ==> n == m
  }

  lemma DistinctHarmless(t: Texts, h: Headers, order: seq<Header>)
    requires Orders(order, h) && DistinctNames(t, h)
    ensures Harmless(t, order)
  {
    forall x, y | x in order && y in order && PlaceOf(EffectOf(t, x)) == PlaceOf(EffectOf(t, y)) != Nowhere
      ensures x == y
    {
      PlaceTellsName(t, x);
      PlaceTellsName(t, y);
    }
  }

  lemma {:induction false} CountedOnce(order: seq<Header>, x: Header)
    requires Once(order)
    ensures multiset(order)[x] == if x in order then 1 else 0
  {
    if order != [] {
      var n := |order| - 1;
      CountedOnce(order[..n], x);
      assert order == order[..n] + [order[n]];
    }
  }

  lemma OrdersPermute(a: seq<Header>, b: seq<Header>, h: Headers)
    requires Orders(a, h) && Orders(b, h)
    ensures multiset(a) == multiset(b)
  {
    forall x ensures multiset(a)[x] == multiset(b)[x] {
      CountedOnce(a, x);
      CountedOnce(b, x);
    }
  }

  /** When normalized names are distinct, every order of iterating over the headers gives the same
      result, warnings counted as a multiset. */
  lemma EveryOrderAgrees(t: Texts, h: Headers, a: seq<Header>, b: seq<Header>)
    requires Orders(a, h) && Orders(b, h) && DistinctNames(t, h)
    ensures Fold(t, a) == Fold(t, b)
  {
    OrdersPermute(a, b, h);
    DistinctHarmless(t, h, a);
    FoldPermutes(t, a, b);
  }

  // ---- the loop over the headers ----

  /** The variables of the loop hold what an accumulator says. */
  ghost predicate Same(acc: Acc, found: bool, obs: Observation, byLimit: map<string, Snapshot>) {
    acc == Acc(found, obs.plan, obs.active, byLimit, multiset(obs.warnings))
  }

  ghost predicate WellKeyed(byLimit: map<string, Snapshot>) {
    forall l :: l in byLimit ==> byLimit[l].limit == l
  }

  method ApplyField(t: Texts, s: Snapshot, f: Field, value: string) returns (r: Snapshot, warning: Option<Warning>)
    ensures var x := FieldEffect(t, s.limit, f, value);
            r == Put(s, x) && warning == if x.Skipped? then Some(x.warning) else None
  {
    r, warning := s, None;
    match f
    case UsedPercent =>
      var v := t.float(value);
      if v.None? || Below(v.value, 0.0) || Above(v.value, 100.0) {
        return s, Some(Warning(s.limit + Suffix(f), |value|));
      }
      r := s.(used := v);
    case WindowMinutes =>
      var v := t.atoi(value);
      if v.None? || v.value <= 0 {
        return s, Some(Warning(s.limit + Suffix(f), |value|));
      }
      r := s.(minutes := v);
    case ResetAfterSeconds =>
      var v := t.int64(value);
      if v.None? || v.value < 0 {
        return s, Some(Warning(s.limit + Suffix(f), |value|));
      }
      r := s.(resetAfter := v);
    case ResetAt =>
      var v := t.time(value);
      if v.Some? {
        r := s.(resetAt := v);
      } else {
        r := s.(rawResetAt := value);
      }
    case Allowed =>
      r := s.(allowed := ParseBool(t, value));
    case LimitReached =>
      r := s.(reached := ParseBool(t, value));
  }

  /** One round of the loop. */
  method ReadHeader(t: Texts, x: Header, found: bool, obs: Observation, byLimit: map<string, Snapshot>, ghost acc: Acc)
    returns (found': bool, obs': Observation, byLimit': map<string, Snapshot>)
    requires Same(acc, found, obs, byLimit) && WellKeyed(byLimit)
    ensures Same(Apply(acc, EffectOf(t, x)), found', obs', byLimit') && WellKeyed(byLimit')
  {
    found', obs', byLimit' := found, obs, byLimit;
    if |x.values| == 0 {
      return;
    }
    var lower := t.lower(t.trim(x.name));
    if !HasPrefix(lower, PREFIX) {
      return;
    }
    found' := true;
    var rest := lower[|PREFIX|..];
    var value := t.trim(x.values[|x.values| - 1]);
    if rest == "plan-type" {
      obs' := obs.(plan := value);
      return;
    }
    if rest == "active-limit" {
      obs' := obs.(active := value);
      return;
    }
    var split := SplitWindowField(rest);
    SplitMeaning(rest);
    if split.None? {
      NoSplit(rest);
      return;
    }
    var (limit, f) := split.value;
    assert SplitFrom(rest, 0) == Some((limit, f));
    byLimit', obs' := ReadField(t, limit, f, value, obs, byLimit, acc);
  }

  lemma NoSplit(rest: string)
    requires forall limit, f :: SplitFrom(rest, 0) != Some((limit, f))
    ensures SplitFrom(rest, 0) == None
  {
    if SplitFrom(rest, 0).Some? {
      var (limit, f) := SplitFrom(rest, 0).value;
      assert SplitFrom(rest, 0) == Some((limit, f));
    }
  }

  lemma FieldOnWindow(t: Texts, limit: string, f: Field, value: string)
    ensures FieldEffect(t, limit, f, value).OnWindow() && FieldEffect(t, limit, f, value).limit == limit
  {
  }

  lemma PutKeepsLimit(s: Snapshot, x: Effect)
    ensures Put(s, x).limit == s.limit
  {
  }

  lemma ApplyWindow(acc: Acc, x: Effect)
    requires x.OnWindow()
    ensures Apply(acc, x) == Acc(true, acc.plan, acc.active, Window(acc.byLimit, x), acc.warnings + Warned(x))
  {
  }

  method ReadField(t: Texts, limit: string, f: Field, value: string, obs: Observation, byLimit: map<string, Snapshot>,
                   ghost acc: Acc)
    returns (byLimit': map<string, Snapshot>, obs': Observation)
    requires Same(acc, acc.found, obs, byLimit) && WellKeyed(byLimit)
    ensures Same(Apply(acc, FieldEffect(t, limit, f, value)), true, obs', byLimit') && WellKeyed(byLimit')
  {
    ghost var x := FieldEffect(t, limit, f, value);
    FieldOnWindow(t, limit, f, value);
    ApplyWindow(acc, x);
    var snap := At(byLimit, limit);
    assert snap.limit == limit;
    var warning;
    snap, warning := ApplyField(t, snap, f, value);
    assert Window(byLimit, x) == byLimit[limit := snap];
    PutKeepsLimit(At(byLimit, limit), x);
    byLimit' := byLimit[limit := snap];
    obs' := obs;
    if warning.Some? {
      obs' := obs.(warnings := obs.warnings + [warning.value]);
    }
  }

  /** A result that reading the headers in an order may have. */
  ghost predicate Parsed(t: Texts, order: seq<Header>, r: Option<Observation>) {
    && (r.Some? <==> Fold(t, order).found)
    && (r.Some? ==> Presents(Fold(t, order), r.value))
  }

  /** The result is that of some order in which the map may be iterated; with distinct normalized names
      it is that of every order. */
  method ParseCodexQuotaHeaders(t: Texts, h: Headers) returns (r: Option<Observation>)
    ensures exists order :: Orders(order, h) && Parsed(t, order, r)
    ensures DistinctNames(t, h) ==> forall order :: Orders(order, h) ==> Parsed(t, order, r)
  {
    var found, obs, byLimit := false, Observation("", "", [], []), map[];
    var left := h.Keys;
    ghost var order: seq<Header> := [];
    while left != {}
      invariant left <= h.Keys
      invariant OrdersSome(order, h, left)
      invariant Same(Fold(t, order), found, obs, byLimit) && WellKeyed(byLimit)
      decreases |left|
    {
      var name :| name in left;
      var x := Header(name, h[name]);
      found, obs, byLimit := ReadHeader(t, x, found, obs, byLimit, Fold(t, order));
      FoldTwo(t, order, x, x);
      OneMore(order, h, left, x);
      order := order + [x];
      left := left - {name};
    }
    if !found {
      r := None;
    } else {
      var snapshots := Collect(byLimit);
      r := Some(obs.(snapshots := snapshots));
    }
    assert Orders(order, h) && Parsed(t, order, r);
    if DistinctNames(t, h) {
      ParsedAlike(t, h, order, r);
    }
  }

  lemma ParsedAlike(t: Texts, h: Headers, order: seq<Header>, r: Option<Observation>)
    requires Orders(order, h) && Parsed(t, order, r) && DistinctNames(t, h)
    ensures forall a :: Orders(a, h) ==> Parsed(t, a, r)
  {
    forall a | Orders(a, h) ensures Parsed(t, a, r) {
      EveryOrderAgrees(t, h, order, a);
    }
  }

  ghost predicate OrdersSome(order: seq<Header>, h: Headers, left: set<string>) {
    && (forall x :: x in order <==> x.name in h && x.name !in left && h[x.name] == x.values)
    && Once(order)
  }

  lemma OneMore(order: seq<Header>, h: Headers, left: set<string>, x: Header)
    requires OrdersSome(order, h, left) && x.name in left && x.name in h && h[x.name] == x.values
    ensures OrdersSome(order + [x], h, left - {x.name})
  {
    assert forall y :: y in order + [x] <==> y in order || y == x;
    assert x !in order;
  }

  // ---- the list of snapshots ----

  predicate Less(a: string, b: string) {
    if b == "" then false
    else if a == "" then true
    else if a[0] != b[0] then a[0] < b[0]
    else Less(a[1..], b[1..])
  }

  /** At the first position where the names differ, a has ended or has the smaller character. */
  ghost predicate SmallerAt(a: string, b: string, k: nat) {
    k <= |a| && k < |b| && a[..k] == b[..k] && (k == |a| || a[k] < b[k])
  }

  lemma SmallerAgrees(a: string, b: string, k: nat)
    ensures SmallerAt(a, b, k) && k > 0 ==> a != "" && b != "" && a[0] == b[0]
  {
    if SmallerAt(a, b, k) && k > 0 {
      assert a[..k][0] == a[0] && b[..k][0] == b[0];
    }
  }

  lemma {:induction false} LessMeaning(a: string, b: string)
    ensures Less(a, b) <==> exists k: nat :: SmallerAt(a, b, k)
  {
    if a == "" || b == "" || a[0] != b[0] {
      assert Less(a, b) ==> SmallerAt(a, b, 0);
      forall k: nat ensures SmallerAt(a, b, k) ==> k == 0 {
        SmallerAgrees(a, b, k);
      }
    } else {
      LessMeaning(a[1..], b[1..]);
      forall k: nat ensures SmallerAt(a[1..], b[1..], k) <==> SmallerAt(a, b, k + 1) {
        Shifted(a, b, k);
      }
      assert !SmallerAt(a, b, 0);
      if k: nat :| SmallerAt(a, b, k) {
        assert SmallerAt(a[1..], b[1..], k - 1);
      }
      if k: nat :| SmallerAt(a[1..], b[1..], k) {
        assert SmallerAt(a, b, k + 1);
      }
    }
  }

  lemma Shifted(a: string, b: string, k: nat)
    requires a != "" && b != "" && a[0] == b[0]
    ensures SmallerAt(a[1..], b[1..], k) <==> SmallerAt(a, b, k + 1)
  {
    if k < |a| && k < |b| {
      assert a[..k + 1] == [a[0]] + a[1..][..k] && b[..k + 1] == [b[0]] + b[1..][..k];
    }
  }

  lemma {:induction false} LessTotal(a: string, b: string)
    ensures a == b || Less(a, b) || Less(b, a)
    ensures !(Less(a, b) && Less(b, a)) && !Less(a, a)
  {
    if a != "" && b != "" && a[0] == b[0] {
      LessTotal(a[1..], b[1..]);
      assert a == [a[0]] + a[1..] && b == [b[0]] + b[1..];
    }
    if a != "" {
      LessTotal(a[1..], a[1..]);
    }
  }

  lemma {:induction false} LessTransitive(a: string, b: string, c: string)
    requires Less(a, b) && Less(b, c)
    ensures Less(a, c)
  {
    if a != "" && a[0] == b[0] == c[0] {
      LessTransitive(a[1..], b[1..], c[1..]);
    }
  }

  ghost predicate Ascending(snaps: seq<Snapshot>) {
    forall i, j :: 0 <= i < j < |snaps| ==> Less(snaps[i].limit, snaps[j].limit)
  }

  /** In strict order of their names, and one for each window. */
  ghost predicate Lists(snaps: seq<Snapshot>, byLimit: map<string, Snapshot>) {
    && Ascending(snaps)
    && forall s :: s in snaps <==> s.limit in byLimit && byLimit[s.limit] == s
  }

  ghost predicate Presents(acc: Acc, obs: Observation) {
    && obs.plan == acc.plan && obs.active == acc.active && multiset(obs.warnings) == acc.warnings
    && Lists(obs.snapshots, acc.byLimit)
  }

  function Insert(s: Snapshot, sorted: seq<Snapshot>): seq<Snapshot> {
    if sorted == [] || Less(s.limit, sorted[0].limit) then [s] + sorted
    else [sorted[0]] + Insert(s, sorted[1..])
  }

  lemma {:induction false} InsertSorts(s: Snapshot, sorted: seq<Snapshot>)
    requires Ascending(sorted) && forall x :: x in sorted ==> x.limit != s.limit
    ensures Ascending(Insert(s, sorted)) && forall x :: x in Insert(s, sorted) <==> x in sorted || x == s
  {
    if sorted == [] {
    } else if Less(s.limit, sorted[0].limit) {
      forall k | 0 < k < |sorted| ensures Less(s.limit, sorted[k].limit) {
        LessTransitive(s.limit, sorted[0].limit, sorted[k].limit);
      }
    } else {
      var rest := sorted[1..];
      assert forall x :: x in rest ==> x in sorted;
      InsertSorts(s, rest);
      assert sorted[0] in sorted;
      LessTotal(s.limit, sorted[0].limit);
      assert forall x :: x in Insert(s, rest) ==> Less(sorted[0].limit, x.limit);
      assert sorted == [sorted[0]] + rest;
    }
  }

  /** The copies of the snapshots, sorted by name. */
  method Collect(byLimit: map<string, Snapshot>) returns (snaps: seq<Snapshot>)
    requires WellKeyed(byLimit)
    ensures Lists(snaps, byLimit)
  {
    var left := byLimit.Keys;
    snaps := [];
    while left != {}
      invariant left <= byLimit.Keys
      invariant Ascending(snaps)
      invariant forall s :: s in snaps <==> s.limit in byLimit && s.limit !in left && byLimit[s.limit] == s
      decreases |left|
    {
      var limit :| limit in left;
      InsertSorts(byLimit[limit], snaps);
      snaps := Insert(byLimit[limit], snaps);
      left := left - {limit};
    }
  }

  lemma TailMembers(a: seq<Snapshot>)
    requires Ascending(a) && a != []
    ensures forall s :: s in a[1..] <==> s in a && s != a[0]
  {
    assert a == [a[0]] + a[1..];
    LessTotal(a[0].limit, a[0].limit);
    assert forall k :: 0 < k < |a| ==> a[k] != a[0];
  }

  lemma {:induction false} AscendingUnique(a: seq<Snapshot>, b: seq<Snapshot>)
    requires Ascending(a) && Ascending(b) && forall s :: s in a <==> s in b
    ensures a == b
  {
    assert b != [] ==> b[0] in b;
    if a != [] {
      assert a[0] in b && b != [];
      assert b[0] in a;
      LessTotal(a[0].limit, b[0].limit);
      assert a[0] == b[0];
      LessTotal(a[0].limit, a[0].limit);
      TailMembers(a);
      TailMembers(b);
      AscendingUnique(a[1..], b[1..]);
    }
  }

  /** What the caller sees does not depend on the iteration order, if normalized names are distinct. */
  lemma ResultIndependent(t: Texts, h: Headers, a: seq<Header>, b: seq<Header>, obs: Observation, obs': Observation)
    requires Orders(a, h) && Orders(b, h) && DistinctNames(t, h)
    requires Presents(Fold(t, a), obs) && Presents(Fold(t, b), obs')
    ensures obs.plan == obs'.plan && obs.active == obs'.active && obs.snapshots == obs'.snapshots
    ensures multiset(obs.warnings) == multiset(obs'.warnings)
  {
    EveryOrderAgrees(t, h, a, b);
    AscendingUnique(obs.snapshots, obs'.snapshots);
  }

  // ---- where each value comes from ----

  function LastWrite(t: Texts, xs: seq<Header>, p: Place): Option<Effect> {
    if xs == [] then None
    else
      var x := EffectOf(t, xs[|xs| - 1]);
      if PlaceOf(x) == p then Some(x) else LastWrite(t, xs[..|xs| - 1], p)
  }

  /** A place holds what an effect wrote to it, or what it starts with. */
  ghost predicate Shows(acc: Acc, p: Place, w: Option<Effect>)
    requires w.Some? ==> PlaceOf(w.value) == p
  {
    match p
    case Nowhere => true
    case Plan => acc.plan == if w.Some? then w.value.text else ""
    case Active => acc.active == if w.Some? then w.value.text else ""
    case Used(l) => At(acc.byLimit, l).used == if w.Some? then Some(w.value.percent) else None
    case Minutes(l) => At(acc.byLimit, l).minutes == if w.Some? then Some(w.value.minutes) else None
    case After(l) => At(acc.byLimit, l).resetAfter == if w.Some? then Some(w.value.seconds) else None
    case Reset(l) => At(acc.byLimit, l).resetAt == if w.Some? then Some(w.value.time) else None
    case RawReset(l) => At(acc.byLimit, l).rawResetAt == if w.Some? then w.value.text else ""
    case Allow(l) => At(acc.byLimit, l).allowed == if w.Some? then w.value.flag else None
    case Reach(l) => At(acc.byLimit, l).reached == if w.Some? then w.value.flag else None
  }

  /** A written place shows what was written. */
  lemma ShowsWritten(acc: Acc, x: Effect)
    requires x.OnWindow() && PlaceOf(x) != Nowhere
    ensures Shows(Apply(acc, x), PlaceOf(x), Some(x))
  {
    ApplyWindow(acc, x);
  }

  /** Another place of a window shows what it did. */
  lemma ShowsKept(acc: Acc, p: Place, w: Option<Effect>, x: Effect)
    requires w.Some? ==> PlaceOf(w.value) == p
    requires x.OnWindow() && PlaceOf(x) != p && Shows(acc, p, w)
    ensures Shows(Apply(acc, x), p, w)
  {
    ApplyWindow(acc, x);
    if !p.Nowhere? && !p.Plan? && !p.Active? {
      var m := acc.byLimit;
      assert At(Window(m, x), p.limit) == if p.limit == x.limit then Put(At(m, p.limit), x) else At(m, p.limit);
    }
  }

  lemma ShowsStep(acc: Acc, p: Place, w: Option<Effect>, x: Effect)
    requires w.Some? ==> PlaceOf(w.value) == p
    requires p != Nowhere && Shows(acc, p, w)
    ensures Shows(Apply(acc, x), p, if PlaceOf(x) == p then Some(x) else w)
  {
    if x.OnWindow() {
      if PlaceOf(x) == p { ShowsWritten(acc, x); } else { ShowsKept(acc, p, w, x); }
    }
  }

  /** Every value in the result is what the last header for its place gave; a value no header gave
      stays unknown. */
  lemma {:induction false} FieldIsLastWrite(t: Texts, xs: seq<Header>, p: Place)
    requires p != Nowhere
    ensures LastWrite(t, xs, p).Some? ==> PlaceOf(LastWrite(t, xs, p).value) == p
    ensures Shows(Fold(t, xs), p, LastWrite(t, xs, p))
  {
    if xs != [] {
      var before := xs[..|xs| - 1];
      FieldIsLastWrite(t, before, p);
      ShowsStep(Fold(t, before), p, LastWrite(t, before, p), EffectOf(t, xs[|xs| - 1]));
    }
  }

  /** A number between 0 and 100, or not a number: what passes both range tests. */
  predicate Percentage(v: Float) {
    v.NotANumber? || (v.Finite? && 0.0 <= v.value <= 100.0)
  }

  /** Windows are named by their headers, and percentages have passed the range tests. */
  ghost predicate Bounded(byLimit: map<string, Snapshot>) {
    forall l :: l in byLimit ==>
      byLimit[l].limit == l && (byLimit[l].used.Some? ==> Percentage(byLimit[l].used.value))
  }

  lemma PercentBounded(t: Texts, x: Header)
    ensures EffectOf(t, x).SetUsed? ==> Percentage(EffectOf(t, x).percent)
  {
  }

  lemma BoundedStep(acc: Acc, x: Effect)
    requires Bounded(acc.byLimit) && (x.SetUsed? ==> Percentage(x.percent))
    ensures Bounded(Apply(acc, x).byLimit)
  {
    if x.OnWindow() {
      ApplyWindow(acc, x);
      PutKeepsLimit(At(acc.byLimit, x.limit), x);
    }
  }

  lemma {:induction false} FoldBounded(t: Texts, xs: seq<Header>)
    ensures Bounded(Fold(t, xs).byLimit)
  {
    if xs != [] {
      FoldBounded(t, xs[..|xs| - 1]);
      PercentBounded(t, xs[|xs| - 1]);
      BoundedStep(Fold(t, xs[..|xs| - 1]), EffectOf(t, xs[|xs| - 1]));
    }
  }

  // ---- conversion to stored snapshots ----

  datatype WindowType = Primary | Secondary | CodeReview | Additional | Unrecognized

  datatype Quota = Quota(window: WindowType, used: Option<Float>, remaining: Option<Float>, limit: Option<real>,
                         resetAt: Option<int>)

  function MapWindowType(name: string): WindowType {
    if name == "primary" then Primary
    else if name == "secondary" then Secondary
    else if name == "code-review" then CodeReview
    else if |name| > |"additional-"| && name[..|"additional-"|] == "additional-" then Additional
    else Unrecognized
  }

  /** Known values are carried over; what remains is told only when the window still allows requests. */
  ghost predicate Converted(s: Snapshot, q: Quota) {
    && q.window == MapWindowType(s.limit) && q.used == s.used && q.resetAt == s.resetAt
    && (q.remaining.Some? <==> s.used.Some? && s.allowed == Some(true))
    && (q.remaining.Some? ==> q.remaining.value == Minus(100.0, s.used.value))
    && (q.limit.Some? <==> s.minutes.Some?) && (q.limit.Some? ==> q.limit.value == s.minutes.value as real)
  }

  method ObservationToSnapshots(obs: Observation) returns (out: seq<Quota>)
    ensures |out| == |obs.snapshots|
    ensures forall i :: 0 <= i < |out| ==> Converted(obs.snapshots[i], out[i])
  {
    out := [];
    for i := 0 to |obs.snapshots|
      invariant |out| == i && forall k :: 0 <= k < i ==> Converted(obs.snapshots[k], out[k])
    {
      var s := obs.snapshots[i];
      var q := Quota(MapWindowType(s.limit), None, None, None, None);
      if s.used.Some? {
        q := q.(used := s.used);
        if s.allowed.Some? && s.allowed.value {
          q := q.(remaining := Some(Minus(100.0, s.used.value)));
        }
      }
      if s.minutes.Some? {
        q := q.(limit := Some(s.minutes.value as real));
      }
      if s.resetAt.Some? {
        q := q.(resetAt := s.resetAt);
      }
      out := out + [q];
    }
  }

  /** What is used and what remains are numbers between 0 and 100 that add up to 100. */
  predicate WithinBounds(q: Quota) {
    && (q.used.Some? ==> q.used.value.Finite? && 0.0 <= q.used.value.value <= 100.0)
    && (q.remaining.Some? ==>
          && q.used.Some? && q.used.value.Finite? && q.remaining.value.Finite?
          && 0.0 <= q.remaining.value.value <= 100.0
          && q.used.value.value + q.remaining.value.value == 100.0)
  }

  lemma ConvertedBounds(s: Snapshot, q: Quota)
    requires Converted(s, q) && (s.used.Some? ==> Percentage(s.used.value))
    ensures WithinBounds(q) <==> s.used != Some(NotANumber)
  {
  }

  /** What a listed snapshot shows as used is the last valid value of its window's headers. */
  lemma UsedShown(t: Texts, order: seq<Header>, obs: Observation, i: nat)
    requires Presents(Fold(t, order), obs) && i < |obs.snapshots|
    ensures var s := obs.snapshots[i];
            var last := LastWrite(t, order, Used(s.limit));
            && (s.used.Some? ==> Percentage(s.used.value))
            && (last.Some? ==> last.value.SetUsed? && last.value.limit == s.limit)
            && s.used == if last.Some? then Some(last.value.percent) else None
  {
    var p := Used(obs.snapshots[i].limit);
    FoldBounded(t, order);
    FieldIsLastWrite(t, order, p);
    ListedUsed(Fold(t, order), obs, i, LastWrite(t, order, p));
  }

  lemma ListedUsed(acc: Acc, obs: Observation, i: nat, w: Option<Effect>)
    requires Presents(acc, obs) && Bounded(acc.byLimit) && i < |obs.snapshots|
    requires w.Some? ==> PlaceOf(w.value) == Used(obs.snapshots[i].limit)
    requires Shows(acc, Used(obs.snapshots[i].limit), w)
    ensures var s := obs.snapshots[i];
            && (s.used.Some? ==> Percentage(s.used.value))
            && (w.Some? ==> w.value.SetUsed? && w.value.limit == s.limit)
            && s.used == if w.Some? then Some(w.value.percent) else None
  {
    assert obs.snapshots[i] in obs.snapshots;
  }

  /** From headers to stored snapshots: what is used is known exactly when some header of that window gave
      a value that passed the range tests, and the stored numbers keep their bounds exactly when the last
      such value is not "NaN", which both tests let through. */
  lemma QuotasBounded(t: Texts, order: seq<Header>, obs: Observation, i: nat, q: Quota)
    requires Presents(Fold(t, order), obs) && i < |obs.snapshots| && Converted(obs.snapshots[i], q)
    ensures var last := LastWrite(t, order, Used(obs.snapshots[i].limit));
            && (q.used.Some? <==> last.Some?)
            && (WithinBounds(q) <==> last != Some(SetUsed(obs.snapshots[i].limit, NotANumber)))
  {
    UsedShown(t, order, obs, i);
    ConvertedBounds(obs.snapshots[i], q);
  }

  /** The one header of an observation that escapes the bounds. */
  const NAN_HEADER := Header(PREFIX + ("primary" + Suffix(UsedPercent)), ["NaN"])

  /** With text routines that read these texts as the standard library does, that header alone leads to a
      stored snapshot outside the bounds. */
  lemma NanEscapes(t: Texts, obs: Observation, q: Quota)
    requires t.trim(NAN_HEADER.name) == NAN_HEADER.name && t.lower(NAN_HEADER.name) == NAN_HEADER.name
    requires t.trim("NaN") == "NaN" && t.float("NaN") == Some(NotANumber)
    requires Presents(Fold(t, [NAN_HEADER]), obs) && obs.snapshots != [] && Converted(obs.snapshots[0], q)
    ensures obs.snapshots[0].limit == "primary" && !WithinBounds(q)
  {
    NanEffect(t);
    assert [NAN_HEADER][..0] == [];
    assert Fold(t, [NAN_HEADER]) == Apply(NOTHING, SetUsed("primary", NotANumber));
    SoleWindow("primary", NotANumber, obs);
    ConvertedBounds(obs.snapshots[0], q);
  }

  lemma NanEffect(t: Texts)
    requires t.trim(NAN_HEADER.name) == NAN_HEADER.name && t.lower(NAN_HEADER.name) == NAN_HEADER.name
    requires t.trim("NaN") == "NaN" && t.float("NaN") == Some(NotANumber)
    ensures EffectOf(t, NAN_HEADER) == SetUsed("primary", NotANumber)
  {
    assert |"primary" + Suffix(UsedPercent)| > |"active-limit"| > |"plan-type"|;
    WindowHeader(t, NAN_HEADER, "primary", UsedPercent);
  }

  /** A header named for a field of a window acts on that field. */
  lemma WindowHeader(t: Texts, x: Header, limit: string, f: Field)
    requires x.values != [] && Normal(t, x.name) == PREFIX + (limit + Suffix(f))
    requires limit + Suffix(f) != "plan-type" && limit + Suffix(f) != "active-limit"
    ensures EffectOf(t, x) == FieldEffect(t, limit, f, t.trim(x.values[|x.values| - 1]))
  {
    var rest := limit + Suffix(f);
    PrefixedHeader(t, x, rest);
    SplitMeaning(rest);
    assert SplitFrom(rest, 0) == Some((limit, f));
  }

  /** A header whose name has the prefix, and is neither of the two without a window. */
  lemma PrefixedHeader(t: Texts, x: Header, rest: string)
    requires x.values != [] && Normal(t, x.name) == PREFIX + rest && rest != "plan-type" && rest != "active-limit"
    ensures EffectOf(t, x) ==
            match SplitFrom(rest, 0)
            case None => Noticed
            case Some((limit, f)) => FieldEffect(t, limit, f, t.trim(x.values[|x.values| - 1]))
  {
    TakeAppend(PREFIX, rest);
    assert (PREFIX + rest)[|PREFIX|..] == rest;
  }

  /** What is listed after a single percentage. */
  lemma SoleWindow(limit: string, percent: Float, obs: Observation)
    requires Presents(Apply(NOTHING, SetUsed(limit, percent)), obs) && obs.snapshots != []
    ensures obs.snapshots[0].limit == limit && obs.snapshots[0].used == Some(percent)
  {
    assert obs.snapshots[0] in obs.snapshots;
  }
}
