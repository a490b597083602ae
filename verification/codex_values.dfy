/** What the quota parser returns, told by the headers themselves: every value by the one header that names
    its field. */
module CodexValues {
  import opened Prelude
  import opened CodexQuota

  /** A header of this name, up to spaces around it and case, has this last value, spaces taken off. */
  ghost predicate Gives(t: Texts, h: Headers, name: string, value: string) {
    exists key :: key in h && GivesAs(t, h, key, name, value)
  }

  predicate GivesAs(t: Texts, h: Headers, key: string, name: string, value: string)
    requires key in h
  {
    h[key] != [] && t.lower(t.trim(key)) == name && t.trim(h[key][|h[key]| - 1]) == value
  }

  /** What the parser returns for headers whose normalized names are distinct. */
  ghost predicate Observed(t: Texts, h: Headers, obs: Observation) {
    DistinctNames(t, h) && exists order :: Orders(order, h) && Parsed(t, order, Some(obs))
  }

  // ---- header names ----

  /** The name of the header for a field of a window. */
  function FieldName(l: string, f: Field): string {
    PREFIX + (l + Suffix(f))
  }

  /** No field name is one of the two names without a window. */
  lemma NotReserved(l: string, f: Field)
    ensures l + Suffix(f) != "plan-type" && l + Suffix(f) != "active-limit"
  {
    var name := l + Suffix(f);
    assert name[|name| - |Suffix(f)|..] == Suffix(f);
    TailOfSuffix(name, f);
    assert Tail("plan-type") == "ype" && Tail("active-limit") == "mit";
    Tails(f);
  }

  lemma Tails(f: Field)
    ensures Tail(Suffix(f)) != "ype" && Tail(Suffix(f)) != "mit"
  {
    assert Tail(Suffix(UsedPercent)) == "ent" && Tail(Suffix(WindowMinutes)) == "tes";
    assert Tail(Suffix(ResetAfterSeconds)) == "nds" && Tail(Suffix(ResetAt)) == "-at";
    assert Tail(Suffix(Allowed)) == "wed" && Tail(Suffix(LimitReached)) == "hed";
  }

  /** The header that gives a field is in the order, and acts on that field. */
  lemma GiverActs(t: Texts, h: Headers, order: seq<Header>, l: string, f: Field, value: string) returns (x: Header)
    requires Orders(order, h) && Gives(t, h, FieldName(l, f), value)
    ensures x in order && EffectOf(t, x) == FieldEffect(t, l, f, value)
    ensures Normal(t, x.name) == FieldName(l, f)
  {
    x := Giver(t, h, order, FieldName(l, f), value);
    ActsNamed(t, x, l, f);
  }

  lemma Giver(t: Texts, h: Headers, order: seq<Header>, name: string, value: string) returns (x: Header)
    requires Orders(order, h) && Gives(t, h, name, value)
    ensures x in order && x.values != [] && Normal(t, x.name) == name && t.trim(x.values[|x.values| - 1]) == value
  {
    var key :| key in h && GivesAs(t, h, key, name, value);
    x := Header(key, h[key]);
  }

  lemma ActsNamed(t: Texts, x: Header, l: string, f: Field)
    requires x.values != [] && Normal(t, x.name) == FieldName(l, f)
    ensures EffectOf(t, x) == FieldEffect(t, l, f, t.trim(x.values[|x.values| - 1]))
  {
    NotReserved(l, f);
    WindowHeader(t, x, l, f);
  }

  /** A header that is named for a field gives that field. */
  lemma NamedGives(t: Texts, h: Headers, order: seq<Header>, x: Header, name: string)
    requires Orders(order, h) && x in order && x.values != [] && Normal(t, x.name) == name
    ensures Gives(t, h, name, t.trim(x.values[|x.values| - 1]))
  {
    assert GivesAs(t, h, x.name, name, t.trim(x.values[|x.values| - 1]));
  }

  /** A header that acts on a window is named for one of its fields. */
  lemma ActorNamed(t: Texts, x: Header) returns (f: Field)
    requires EffectOf(t, x).OnWindow()
    ensures x.values != [] && Normal(t, x.name) == FieldName(EffectOf(t, x).limit, f)
    ensures EffectOf(t, x) == FieldEffect(t, EffectOf(t, x).limit, f, t.trim(x.values[|x.values| - 1]))
  {
    var n := Normal(t, x.name);
    var rest := n[|PREFIX|..];
    assert n == PREFIX + rest;
    SplitFromMeaning(rest, 0);
    var limit := SplitFrom(rest, 0).value.0;
    f := SplitFrom(rest, 0).value.1;
    FieldOnWindow(t, limit, f, t.trim(x.values[|x.values| - 1]));
  }

  lemma SameName(t: Texts, h: Headers, order: seq<Header>, x: Header, y: Header)
    requires Orders(order, h) && DistinctNames(t, h) && x in order && y in order
    requires Normal(t, x.name) == Normal(t, y.name)
    ensures x == y
  {
  }

  // ---- the last write to a place ----

  /** The last write, whatever the effects of the headers are. */
  function LastBy(effect: Header -> Effect, xs: seq<Header>, p: Place): Option<Effect> {
    if xs == [] then None
    else
      var x := effect(xs[|xs| - 1]);
      if PlaceOf(x) == p then Some(x) else LastBy(effect, xs[..|xs| - 1], p)
  }

  function Effects(t: Texts): Header -> Effect {
    (x: Header) => EffectOf(t, x)
  }

  lemma {:induction false} LastBySame(t: Texts, xs: seq<Header>, p: Place)
    ensures LastWrite(t, xs, p) == LastBy(Effects(t), xs, p)
  {
    if xs != [] {
      LastBySame(t, xs[..|xs| - 1], p);
    }
  }

  lemma {:induction false} LastWriter(effect: Header -> Effect, xs: seq<Header>, p: Place) returns (y: Header)
    requires LastBy(effect, xs, p).Some?
    ensures y in xs && LastBy(effect, xs, p) == Some(effect(y)) && PlaceOf(effect(y)) == p
  {
    y := xs[|xs| - 1];
    if PlaceOf(effect(y)) != p {
      y := LastWriter(effect, xs[..|xs| - 1], p);
    }
  }

  lemma {:induction false} SoleWriter(effect: Header -> Effect, xs: seq<Header>, p: Place, x: Header)
    requires x in xs && PlaceOf(effect(x)) == p
    requires forall y :: y in xs && PlaceOf(effect(y)) == p ==> y == x
    ensures LastBy(effect, xs, p) == Some(effect(x))
  {
    var n := |xs| - 1;
    if PlaceOf(effect(xs[n])) != p {
      assert x in xs[..n];
      SoleWriter(effect, xs[..n], p, x);
    }
  }

  lemma GivenIsLast(t: Texts, h: Headers, order: seq<Header>, l: string, f: Field, p: Place, value: string)
    requires Orders(order, h) && DistinctNames(t, h) && p != Nowhere && NameOf(p) == l + Suffix(f)
    requires Gives(t, h, FieldName(l, f), value) && PlaceOf(FieldEffect(t, l, f, value)) == p
    ensures LastWrite(t, order, p) == Some(FieldEffect(t, l, f, value))
  {
    var x := GiverActs(t, h, order, l, f, value);
    forall y | y in order && PlaceOf(EffectOf(t, y)) == p ensures y == x {
      PlaceTellsName(t, y);
      SameName(t, h, order, x, y);
    }
    SoleWriter(Effects(t), order, p, x);
    LastBySame(t, order, p);
  }

  lemma LastIsGiven(t: Texts, h: Headers, order: seq<Header>, l: string, f: Field, p: Place) returns (value: string)
    requires Orders(order, h) && p != Nowhere && NameOf(p) == l + Suffix(f) && LastWrite(t, order, p).Some?
    ensures Gives(t, h, FieldName(l, f), value)
    ensures LastWrite(t, order, p) == Some(FieldEffect(t, l, f, value))
    ensures PlaceOf(FieldEffect(t, l, f, value)) == p
  {
    LastBySame(t, order, p);
    var y := LastWriter(Effects(t), order, p);
    PlaceTellsName(t, y);
    assert y.values != [];
    value := t.trim(y.values[|y.values| - 1]);
    NamedGives(t, h, order, y, FieldName(l, f));
    NotReserved(l, f);
    WindowHeader(t, y, l, f);
  }

  /** A header for this field has this effect. */
  ghost predicate Writes(t: Texts, h: Headers, l: string, f: Field, e: Effect) {
    exists value :: Gives(t, h, FieldName(l, f), value) && FieldEffect(t, l, f, value) == e
  }

  /** A listed window shows what was written last, and that is what a header for the field gives. */
  lemma PlaceTold(t: Texts, h: Headers, order: seq<Header>, obs: Observation, s: Snapshot, f: Field, e: Effect)
    requires Orders(order, h) && DistinctNames(t, h) && Parsed(t, order, Some(obs)) && s in obs.snapshots
    requires PlaceOf(e) != Nowhere && NameOf(PlaceOf(e)) == s.limit + Suffix(f)
    ensures s.limit in Fold(t, order).byLimit && At(Fold(t, order).byLimit, s.limit) == s
    ensures var w := LastWrite(t, order, PlaceOf(e));
            && (w.Some? ==> PlaceOf(w.value) == PlaceOf(e)) && Shows(Fold(t, order), PlaceOf(e), w)
            && (w == Some(e) <==> Writes(t, h, s.limit, f, e))
  {
    var p := PlaceOf(e);
    FieldIsLastWrite(t, order, p);
    if LastWrite(t, order, p) == Some(e) {
      var value := LastIsGiven(t, h, order, s.limit, f, p);
    }
    forall value | Gives(t, h, FieldName(s.limit, f), value) && FieldEffect(t, s.limit, f, value) == e
      ensures LastWrite(t, order, p) == Some(e)
    {
      GivenIsLast(t, h, order, s.limit, f, p, value);
    }
  }

  lemma NameIs(l: string, f: Field, suffix: string)
    requires Suffix(f) == suffix
    ensures FieldName(l, f) == "x-codex-" + l + suffix
  {
    Assoc(PREFIX, l, suffix);
  }

  // ---- the values of a window ----

  lemma UsedShown(t: Texts, h: Headers, order: seq<Header>, obs: Observation, s: Snapshot, v: Float)
    requires Orders(order, h) && DistinctNames(t, h) && Parsed(t, order, Some(obs)) && s in obs.snapshots
    ensures s.used == Some(v) <==> Writes(t, h, s.limit, UsedPercent, SetUsed(s.limit, v))
  {
    PlaceTold(t, h, order, obs, s, UsedPercent, SetUsed(s.limit, v));
  }

  lemma UsedWritten(t: Texts, h: Headers, l: string, v: Float)
    ensures Writes(t, h, l, UsedPercent, SetUsed(l, v)) <==>
            exists value :: Gives(t, h, "x-codex-" + l + "-used-percent", value) && t.float(value) == Some(v)
                            && (v.NotANumber? || (v.Finite? && 0.0 <= v.value <= 100.0))
  {
    NameIs(l, UsedPercent, "-used-percent");
    forall value
      ensures FieldEffect(t, l, UsedPercent, value) == SetUsed(l, v) <==> t.float(value) == Some(v) && Percentage(v)
    {
    }
  }

  /** A percentage is shown exactly when the header for it reads as a number from 0 to 100, or as NaN. */
  lemma UsedTold(t: Texts, h: Headers, obs: Observation, s: Snapshot, v: Float)
    requires Observed(t, h, obs) && s in obs.snapshots
    ensures s.used == Some(v) <==>
            exists value :: Gives(t, h, "x-codex-" + s.limit + "-used-percent", value) && t.float(value) == Some(v)
                            && (v.NotANumber? || (v.Finite? && 0.0 <= v.value <= 100.0))
  {
    var order :| Orders(order, h) && Parsed(t, order, Some(obs));
    UsedShown(t, h, order, obs, s, v);
    UsedWritten(t, h, s.limit, v);
  }

  lemma MinutesShown(t: Texts, h: Headers, order: seq<Header>, obs: Observation, s: Snapshot, v: int)
    requires Orders(order, h) && DistinctNames(t, h) && Parsed(t, order, Some(obs)) && s in obs.snapshots
    ensures s.minutes == Some(v) <==> Writes(t, h, s.limit, WindowMinutes, SetMinutes(s.limit, v))
  {
    PlaceTold(t, h, order, obs, s, WindowMinutes, SetMinutes(s.limit, v));
  }

  lemma MinutesWritten(t: Texts, h: Headers, l: string, v: int)
    ensures Writes(t, h, l, WindowMinutes, SetMinutes(l, v)) <==>
            exists value :: Gives(t, h, "x-codex-" + l + "-window-minutes", value) && t.atoi(value) == Some(v)
                            && v > 0
  {
    NameIs(l, WindowMinutes, "-window-minutes");
    forall value
      ensures FieldEffect(t, l, WindowMinutes, value) == SetMinutes(l, v) <==> t.atoi(value) == Some(v) && v > 0
    {
    }
  }

  /** A window's minutes: exactly when its header reads as a positive integer. */
  lemma MinutesTold(t: Texts, h: Headers, obs: Observation, s: Snapshot, v: int)
    requires Observed(t, h, obs) && s in obs.snapshots
    ensures s.minutes == Some(v) <==>
            exists value :: Gives(t, h, "x-codex-" + s.limit + "-window-minutes", value) && t.atoi(value) == Some(v)
                            && v > 0
  {
    var order :| Orders(order, h) && Parsed(t, order, Some(obs));
    MinutesShown(t, h, order, obs, s, v);
    MinutesWritten(t, h, s.limit, v);
  }

  lemma ResetAfterShown(t: Texts, h: Headers, order: seq<Header>, obs: Observation, s: Snapshot, v: int)
    requires Orders(order, h) && DistinctNames(t, h) && Parsed(t, order, Some(obs)) && s in obs.snapshots
    ensures s.resetAfter == Some(v) <==> Writes(t, h, s.limit, ResetAfterSeconds, SetResetAfter(s.limit, v))
  {
    PlaceTold(t, h, order, obs, s, ResetAfterSeconds, SetResetAfter(s.limit, v));
  }

  lemma ResetAfterWritten(t: Texts, h: Headers, l: string, v: int)
    ensures Writes(t, h, l, ResetAfterSeconds, SetResetAfter(l, v)) <==>
            exists value :: Gives(t, h, "x-codex-" + l + "-reset-after-seconds", value)
                            && t.int64(value) == Some(v) && v >= 0
  {
    NameIs(l, ResetAfterSeconds, "-reset-after-seconds");
    forall value
      ensures FieldEffect(t, l, ResetAfterSeconds, value) == SetResetAfter(l, v) <==>
              t.int64(value) == Some(v) && v >= 0
    {
    }
  }

  /** The seconds to a reset: exactly when their header reads as an integer that is not negative. */
  lemma ResetAfterTold(t: Texts, h: Headers, obs: Observation, s: Snapshot, v: int)
    requires Observed(t, h, obs) && s in obs.snapshots
    ensures s.resetAfter == Some(v) <==>
            exists value :: Gives(t, h, "x-codex-" + s.limit + "-reset-after-seconds", value)
                            && t.int64(value) == Some(v) && v >= 0
  {
    var order :| Orders(order, h) && Parsed(t, order, Some(obs));
    ResetAfterShown(t, h, order, obs, s, v);
    ResetAfterWritten(t, h, s.limit, v);
  }

  lemma ResetAtShown(t: Texts, h: Headers, order: seq<Header>, obs: Observation, s: Snapshot, v: int)
    requires Orders(order, h) && DistinctNames(t, h) && Parsed(t, order, Some(obs)) && s in obs.snapshots
    ensures s.resetAt == Some(v) <==> Writes(t, h, s.limit, ResetAt, SetResetAt(s.limit, v))
  {
    PlaceTold(t, h, order, obs, s, ResetAt, SetResetAt(s.limit, v));
  }

  lemma ResetAtWritten(t: Texts, h: Headers, l: string, v: int)
    ensures Writes(t, h, l, ResetAt, SetResetAt(l, v)) <==>
            exists value :: Gives(t, h, "x-codex-" + l + "-reset-at", value) && t.time(value) == Some(v)
  {
    NameIs(l, ResetAt, "-reset-at");
    forall value ensures FieldEffect(t, l, ResetAt, value) == SetResetAt(l, v) <==> t.time(value) == Some(v) {
    }
  }

  /** The time of a reset: exactly when its header reads as a time. */
  lemma ResetAtTold(t: Texts, h: Headers, obs: Observation, s: Snapshot, v: int)
    requires Observed(t, h, obs) && s in obs.snapshots
    ensures s.resetAt == Some(v) <==>
            exists value :: Gives(t, h, "x-codex-" + s.limit + "-reset-at", value) && t.time(value) == Some(v)
  {
    var order :| Orders(order, h) && Parsed(t, order, Some(obs));
    ResetAtShown(t, h, order, obs, s, v);
    ResetAtWritten(t, h, s.limit, v);
  }

  lemma RawResetAtShown(t: Texts, h: Headers, order: seq<Header>, obs: Observation, s: Snapshot, v: string)
    requires Orders(order, h) && DistinctNames(t, h) && Parsed(t, order, Some(obs)) && s in obs.snapshots && v != ""
    ensures s.rawResetAt == v <==> Writes(t, h, s.limit, ResetAt, SetRawResetAt(s.limit, v))
  {
    PlaceTold(t, h, order, obs, s, ResetAt, SetRawResetAt(s.limit, v));
  }

  lemma RawResetAtWritten(t: Texts, h: Headers, l: string, v: string)
    ensures Writes(t, h, l, ResetAt, SetRawResetAt(l, v)) <==>
            Gives(t, h, "x-codex-" + l + "-reset-at", v) && t.time(v).None?
  {
    NameIs(l, ResetAt, "-reset-at");
    forall value
      ensures FieldEffect(t, l, ResetAt, value) == SetRawResetAt(l, v) <==> value == v && t.time(value).None?
    {
    }
  }

  /** The text of that header is kept exactly when it does not. */
  lemma RawResetAtTold(t: Texts, h: Headers, obs: Observation, s: Snapshot, v: string)
    requires Observed(t, h, obs) && s in obs.snapshots && v != ""
    ensures s.rawResetAt == v <==>
            Gives(t, h, "x-codex-" + s.limit + "-reset-at", v) && t.time(v).None?
  {
    var order :| Orders(order, h) && Parsed(t, order, Some(obs));
    RawResetAtShown(t, h, order, obs, s, v);
    RawResetAtWritten(t, h, s.limit, v);
  }

  /** The words for a flag, in any case. */
  predicate Says(t: Texts, value: string, flag: bool) {
    if flag then t.lower(value) in ["true", "1", "yes"] else t.lower(value) in ["false", "0", "no"]
  }

  lemma FlagRead(t: Texts, value: string, flag: bool)
    ensures ParseBool(t, value) == Some(flag) <==> Says(t, value, flag)
  {
    assert "true"[0] == 't' && "1"[0] == '1' && "yes"[0] == 'y';
    assert "false"[0] == 'f' && "0"[0] == '0' && "no"[0] == 'n';
  }

  lemma AllowedShown(t: Texts, h: Headers, order: seq<Header>, obs: Observation, s: Snapshot, flag: bool)
    requires Orders(order, h) && DistinctNames(t, h) && Parsed(t, order, Some(obs)) && s in obs.snapshots
    ensures s.allowed == Some(flag) <==> Writes(t, h, s.limit, Allowed, SetAllowed(s.limit, Some(flag)))
  {
    PlaceTold(t, h, order, obs, s, Allowed, SetAllowed(s.limit, Some(flag)));
  }

  lemma AllowedWritten(t: Texts, h: Headers, l: string, flag: bool)
    ensures Writes(t, h, l, Allowed, SetAllowed(l, Some(flag))) <==>
            exists value :: Gives(t, h, "x-codex-" + l + "-allowed", value) && Says(t, value, flag)
  {
    NameIs(l, Allowed, "-allowed");
    forall value ensures FieldEffect(t, l, Allowed, value) == SetAllowed(l, Some(flag)) <==> Says(t, value, flag) {
      FlagRead(t, value, flag);
    }
  }

  /** Whether requests are allowed: exactly when the header says so in one of the known words. */
  lemma AllowedTold(t: Texts, h: Headers, obs: Observation, s: Snapshot, flag: bool)
    requires Observed(t, h, obs) && s in obs.snapshots
    ensures s.allowed == Some(flag) <==>
            exists value :: Gives(t, h, "x-codex-" + s.limit + "-allowed", value) && Says(t, value, flag)
  {
    var order :| Orders(order, h) && Parsed(t, order, Some(obs));
    AllowedShown(t, h, order, obs, s, flag);
    AllowedWritten(t, h, s.limit, flag);
  }

  lemma ReachedShown(t: Texts, h: Headers, order: seq<Header>, obs: Observation, s: Snapshot, flag: bool)
    requires Orders(order, h) && DistinctNames(t, h) && Parsed(t, order, Some(obs)) && s in obs.snapshots
    ensures s.reached == Some(flag) <==> Writes(t, h, s.limit, LimitReached, SetReached(s.limit, Some(flag)))
  {
    PlaceTold(t, h, order, obs, s, LimitReached, SetReached(s.limit, Some(flag)));
  }

  lemma ReachedWritten(t: Texts, h: Headers, l: string, flag: bool)
    ensures Writes(t, h, l, LimitReached, SetReached(l, Some(flag))) <==>
            exists value :: Gives(t, h, "x-codex-" + l + "-limit-reached", value) && Says(t, value, flag)
  {
    NameIs(l, LimitReached, "-limit-reached");
    forall value ensures FieldEffect(t, l, LimitReached, value) == SetReached(l, Some(flag)) <==> Says(t, value, flag) {
      FlagRead(t, value, flag);
    }
  }

  /** Whether the limit is reached, likewise. */
  lemma ReachedTold(t: Texts, h: Headers, obs: Observation, s: Snapshot, flag: bool)
    requires Observed(t, h, obs) && s in obs.snapshots
    ensures s.reached == Some(flag) <==>
            exists value :: Gives(t, h, "x-codex-" + s.limit + "-limit-reached", value) && Says(t, value, flag)
  {
    var order :| Orders(order, h) && Parsed(t, order, Some(obs));
    ReachedShown(t, h, order, obs, s, flag);
    ReachedWritten(t, h, s.limit, flag);
  }

  // ---- which windows there are ----

  ghost predicate Touches(t: Texts, xs: seq<Header>, l: string) {
    exists x :: x in xs && EffectOf(t, x).OnWindow() && EffectOf(t, x).limit == l
  }

  lemma {:induction false} FoldWindows(t: Texts, xs: seq<Header>, l: string)
    ensures l in Fold(t, xs).byLimit <==> Touches(t, xs, l)
  {
    if xs != [] {
      var n := |xs| - 1;
      FoldWindows(t, xs[..n], l);
      assert xs == xs[..n] + [xs[n]];
      if EffectOf(t, xs[n]).OnWindow() {
        ApplyWindow(Fold(t, xs[..n]), EffectOf(t, xs[n]));
      }
    }
  }

  /** Some header is named for a field of this window. */
  ghost predicate Named(t: Texts, h: Headers, l: string) {
    exists value ::
      || Gives(t, h, "x-codex-" + l + "-used-percent", value) || Gives(t, h, "x-codex-" + l + "-window-minutes", value)
      || Gives(t, h, "x-codex-" + l + "-reset-after-seconds", value) || Gives(t, h, "x-codex-" + l + "-reset-at", value)
      || Gives(t, h, "x-codex-" + l + "-allowed", value) || Gives(t, h, "x-codex-" + l + "-limit-reached", value)
  }

  lemma NamedMeaning(t: Texts, h: Headers, l: string)
    ensures Named(t, h, l) <==> exists f, value :: Gives(t, h, FieldName(l, f), value)
  {
    NameIs(l, UsedPercent, "-used-percent");
    NameIs(l, WindowMinutes, "-window-minutes");
    NameIs(l, ResetAfterSeconds, "-reset-after-seconds");
    NameIs(l, ResetAt, "-reset-at");
    NameIs(l, Allowed, "-allowed");
    NameIs(l, LimitReached, "-limit-reached");
    if f, value :| Gives(t, h, FieldName(l, f), value) {
      match f
      case UsedPercent =>
      case WindowMinutes =>
      case ResetAfterSeconds =>
      case ResetAt =>
      case Allowed =>
      case LimitReached =>
    }
  }

  /** A window is listed exactly when some header is named for one of its fields. */
  lemma WindowsTold(t: Texts, h: Headers, obs: Observation, l: string)
    requires Observed(t, h, obs)
    ensures (exists s :: s in obs.snapshots && s.limit == l) <==> Named(t, h, l)
  {
    var order :| Orders(order, h) && Parsed(t, order, Some(obs));
    var byLimit := Fold(t, order).byLimit;
    FoldBounded(t, order);
    FoldWindows(t, order, l);
    NamedMeaning(t, h, l);
    if l in byLimit {
      assert byLimit[l] in obs.snapshots;
      var x :| x in order && EffectOf(t, x).OnWindow() && EffectOf(t, x).limit == l;
      var f := ActorNamed(t, x);
      NamedGives(t, h, order, x, FieldName(l, f));
    }
    if f, value :| Gives(t, h, FieldName(l, f), value) {
      var x := GiverActs(t, h, order, l, f, value);
      FieldOnWindow(t, l, f, value);
    }
  }

  // ---- warnings ----

  /** A header whose value does not pass, and what is said about it. */
  ghost predicate Invalid(t: Texts, h: Headers, w: Warning) {
    exists l, value :: |value| == w.length && (
      || (w.field == l + "-used-percent" && Gives(t, h, "x-codex-" + w.field, value)
          && (t.float(value).None?
              || !(t.float(value).value.NotANumber?
                   || (t.float(value).value.Finite? && 0.0 <= t.float(value).value.value <= 100.0))))
      || (w.field == l + "-window-minutes" && Gives(t, h, "x-codex-" + w.field, value)
          && (t.atoi(value).None? || t.atoi(value).value <= 0))
      || (w.field == l + "-reset-after-seconds" && Gives(t, h, "x-codex-" + w.field, value)
          && (t.int64(value).None? || t.int64(value).value < 0)))
  }

  ghost predicate Warns(t: Texts, x: Header, w: Warning) {
    EffectOf(t, x).Skipped? && EffectOf(t, x).warning == w
  }

  lemma ApplyWarns(acc: Acc, x: Effect, w: Warning)
    ensures Apply(acc, x).warnings[w] == acc.warnings[w] + if x.Skipped? && x.warning == w then 1 else 0
  {
    if x.OnWindow() {
      ApplyWindow(acc, x);
    }
  }

  lemma {:induction false} NoWarner(t: Texts, xs: seq<Header>, w: Warning)
    requires forall x :: x in xs ==> !Warns(t, x, w)
    ensures Fold(t, xs).warnings[w] == 0
  {
    if xs != [] {
      var n := |xs| - 1;
      NoWarner(t, xs[..n], w);
      assert !Warns(t, xs[n], w);
      ApplyWarns(Fold(t, xs[..n]), EffectOf(t, xs[n]), w);
    }
  }

  lemma {:induction false} SoleWarner(t: Texts, xs: seq<Header>, x: Header, w: Warning)
    requires Once(xs) && x in xs && Warns(t, x, w) && forall y :: y in xs && Warns(t, y, w) ==> y == x
    ensures Fold(t, xs).warnings[w] == 1
  {
    var n := |xs| - 1;
    var before, last := xs[..n], xs[n];
    assert forall y :: y in xs <==> y in before || y == last;
    assert last !in before;
    ApplyWarns(Fold(t, before), EffectOf(t, last), w);
    if last == x {
      NoWarner(t, before, w);
    } else {
      assert !Warns(t, last, w);
      SoleWarner(t, before, x, w);
    }
  }

  /** A skipped field is named in the warning, and its value did not pass. */
  lemma SkippedIsInvalid(t: Texts, h: Headers, order: seq<Header>, x: Header, w: Warning)
    requires Orders(order, h) && x in order && Warns(t, x, w)
    ensures Normal(t, x.name) == PREFIX + w.field && Invalid(t, h, w)
  {
    var f := ActorNamed(t, x);
    var l, value := EffectOf(t, x).limit, t.trim(x.values[|x.values| - 1]);
    NamedGives(t, h, order, x, FieldName(l, f));
    FieldSkipped(t, h, l, f, value, w);
  }

  lemma FieldSkipped(t: Texts, h: Headers, l: string, f: Field, value: string, w: Warning)
    requires Gives(t, h, FieldName(l, f), value) && FieldEffect(t, l, f, value) == Skipped(l, w)
    ensures FieldName(l, f) == PREFIX + w.field && Invalid(t, h, w)
  {
    assert w.field == l + Suffix(f) && |value| == w.length;
  }

  lemma InvalidIsSkipped(t: Texts, h: Headers, order: seq<Header>, w: Warning) returns (x: Header)
    requires Orders(order, h) && Invalid(t, h, w)
    ensures x in order && Warns(t, x, w)
  {
    var l, value :| |value| == w.length && (
      || (w.field == l + "-used-percent" && Gives(t, h, "x-codex-" + w.field, value)
          && (t.float(value).None? || !Percentage(t.float(value).value)))
      || (w.field == l + "-window-minutes" && Gives(t, h, "x-codex-" + w.field, value)
          && (t.atoi(value).None? || t.atoi(value).value <= 0))
      || (w.field == l + "-reset-after-seconds" && Gives(t, h, "x-codex-" + w.field, value)
          && (t.int64(value).None? || t.int64(value).value < 0)));
    if w.field == l + Suffix(UsedPercent) && (t.float(value).None? || !Percentage(t.float(value).value)) {
      x := GiverActs(t, h, order, l, UsedPercent, value);
    } else if w.field == l + Suffix(WindowMinutes) && (t.atoi(value).None? || t.atoi(value).value <= 0) {
      x := GiverActs(t, h, order, l, WindowMinutes, value);
    } else {
      x := GiverActs(t, h, order, l, ResetAfterSeconds, value);
    }
  }

  /** Exactly the percentages, minutes and seconds that do not pass are warned about, once each. */
  lemma WarningsTold(t: Texts, h: Headers, obs: Observation, w: Warning)
    requires Observed(t, h, obs)
    ensures multiset(obs.warnings)[w] == if Invalid(t, h, w) then 1 else 0
  {
    var order :| Orders(order, h) && Parsed(t, order, Some(obs));
    if Invalid(t, h, w) {
      var x := InvalidIsSkipped(t, h, order, w);
      SkippedIsInvalid(t, h, order, x, w);
      forall y | y in order && Warns(t, y, w) ensures y == x {
        SkippedIsInvalid(t, h, order, y, w);
        SameName(t, h, order, x, y);
      }
      SoleWarner(t, order, x, w);
    } else {
      forall x | x in order ensures !Warns(t, x, w) {
        if Warns(t, x, w) {
          SkippedIsInvalid(t, h, order, x, w);
        }
      }
      NoWarner(t, order, w);
    }
  }

  // ---- the plan, the active limit, and whether there is a result at all ----

  /** The place of a header without a window, its name, and its effect. */
  lemma PlainHeader(t: Texts, x: Header, value: string)
    requires x.values != [] && t.trim(x.values[|x.values| - 1]) == value
    ensures Normal(t, x.name) == "x-codex-" + "plan-type" ==> EffectOf(t, x) == SetPlan(value)
    ensures Normal(t, x.name) == "x-codex-" + "active-limit" ==> EffectOf(t, x) == SetActive(value)
  {
    assert "plan-type"[0] == 'p' && "active-limit"[0] == 'a';
    TakeAppend(PREFIX, "plan-type");
    TakeAppend(PREFIX, "active-limit");
    assert (PREFIX + "plan-type")[|PREFIX|..] == "plan-type";
    assert (PREFIX + "active-limit")[|PREFIX|..] == "active-limit";
  }

  /** The last header that writes to a place without a window has its name, and wrote its value. */
  lemma PlainLast(t: Texts, h: Headers, order: seq<Header>, p: Place, name: string) returns (value: string)
    requires Orders(order, h) && (p == Plan || p == Active) && NameOf(p) == name
    requires LastWrite(t, order, p).Some?
    ensures Gives(t, h, "x-codex-" + name, value)
    ensures PlaceOf(LastWrite(t, order, p).value) == p && LastWrite(t, order, p).value.text == value
  {
    LastBySame(t, order, p);
    var y := LastWriter(Effects(t), order, p);
    PlaceTellsName(t, y);
    assert y.values != [];
    value := t.trim(y.values[|y.values| - 1]);
    PlainHeader(t, y, value);
    NamedGives(t, h, order, y, PREFIX + name);
  }

  lemma PlainGiven(t: Texts, h: Headers, order: seq<Header>, p: Place, name: string, value: string)
    requires Orders(order, h) && DistinctNames(t, h) && (p == Plan || p == Active) && NameOf(p) == name
    requires Gives(t, h, "x-codex-" + name, value)
    ensures LastWrite(t, order, p) == Some(if p == Plan then SetPlan(value) else SetActive(value))
  {
    var x := Giver(t, h, order, "x-codex-" + name, value);
    PlainHeader(t, x, value);
    forall y | y in order && PlaceOf(EffectOf(t, y)) == p ensures y == x {
      PlaceTellsName(t, y);
      SameName(t, h, order, x, y);
    }
    SoleWriter(Effects(t), order, p, x);
    LastBySame(t, order, p);
  }

  lemma PlainTold(t: Texts, h: Headers, order: seq<Header>, p: Place, name: string, text: string, v: string)
    requires Orders(order, h) && DistinctNames(t, h) && (p == Plan || p == Active) && NameOf(p) == name && v != ""
    requires text == if p == Plan then Fold(t, order).plan else Fold(t, order).active
    ensures text == v <==> Gives(t, h, "x-codex-" + name, v)
  {
    FieldIsLastWrite(t, order, p);
    if text == v {
      var value := PlainLast(t, h, order, p, name);
    }
    if Gives(t, h, "x-codex-" + name, v) {
      PlainGiven(t, h, order, p, name, v);
    }
  }

  /** The plan and the active limit are what their headers say. */
  lemma PlanTold(t: Texts, h: Headers, obs: Observation, v: string)
    requires Observed(t, h, obs) && v != ""
    ensures obs.plan == v <==> Gives(t, h, "x-codex-" + "plan-type", v)
    ensures obs.active == v <==> Gives(t, h, "x-codex-" + "active-limit", v)
  {
    var order :| Orders(order, h) && Parsed(t, order, Some(obs));
    PlainTold(t, h, order, Plan, "plan-type", obs.plan, v);
    PlainTold(t, h, order, Active, "active-limit", obs.active, v);
  }

  /** A header with a value, whose normalized name has the prefix. */
  predicate Signals(t: Texts, x: Header) {
    x.values != [] && "x-codex-" <= t.lower(t.trim(x.name))
  }

  lemma {:induction false} FoldFound(t: Texts, xs: seq<Header>)
    ensures Fold(t, xs).found <==> exists i :: 0 <= i < |xs| && Signals(t, xs[i])
  {
    if xs != [] {
      var n := |xs| - 1;
      FoldFound(t, xs[..n]);
      SignalFound(t, Fold(t, xs[..n]), xs[n]);
      assert forall i :: 0 <= i < n ==> xs[..n][i] == xs[i];
    }
  }

  lemma SignalFound(t: Texts, acc: Acc, x: Header)
    ensures Apply(acc, EffectOf(t, x)).found <==> acc.found || Signals(t, x)
  {
  }

  /** There is no result exactly when no header has a value and a name with the prefix. */
  lemma FoundTold(t: Texts, h: Headers, order: seq<Header>, r: Option<Observation>)
    requires Orders(order, h) && Parsed(t, order, r)
    ensures r.None? <==> forall name :: name in h ==> !Signals(t, Header(name, h[name]))
  {
    FoldFound(t, order);
    forall name | name in h ensures Header(name, h[name]) in order {
    }
    forall i | 0 <= i < |order| ensures order[i].name in h && order[i] == Header(order[i].name, h[order[i].name]) {
      assert order[i] in order;
    }
  }

  // ---- what is stored ----

  /** From two headers to the stored snapshot: what is used is the percentage, what remains is the rest. */
  lemma RemainderTold(t: Texts, h: Headers, obs: Observation, s: Snapshot, q: Quota, value: string, flag: string,
                      v: real)
    requires Observed(t, h, obs) && s in obs.snapshots && Converted(s, q)
    requires Gives(t, h, "x-codex-" + s.limit + "-used-percent", value) && t.float(value) == Some(Finite(v))
    requires 0.0 <= v <= 100.0
    requires Gives(t, h, "x-codex-" + s.limit + "-allowed", flag) && Says(t, flag, true)
    ensures q.used == Some(Finite(v)) && q.remaining == Some(Finite(100.0 - v))
  {
    UsedTold(t, h, obs, s, Finite(v));
    AllowedTold(t, h, obs, s, true);
  }

  /** The window types that are told apart by name. */
  lemma WindowTypes(name: string)
    ensures MapWindowType(name) == Primary <==> name == "primary"
    ensures MapWindowType(name) == Secondary <==> name == "secondary"
    ensures MapWindowType(name) == CodeReview <==> name == "code-review"
    ensures MapWindowType(name) == Additional <==> exists rest :: rest != "" && name == "additional-" + rest
  {
    assert "primary"[0] == 'p' && "secondary"[0] == 's' && "code-review"[0] == 'c' && "additional-"[0] == 'a';
    if |name| > |"additional-"| && name[..|"additional-"|] == "additional-" {
      assert name == "additional-" + name[|"additional-"|..];
    }
  }
}
