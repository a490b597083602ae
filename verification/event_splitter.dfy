/** The Anthropic passthrough: cutting a byte stream into events as it arrives. */
module EventSplitter {
  import opened Prelude
  import opened Bytes

  /** A blank line in the form the splitter recognizes starts at i. */
  predicate BoundaryAt(b: bytes, i: int) {
    && 0 <= i && i + 1 < |b| && b[i] == LF
    && (b[i + 1] == LF || (i + 2 < |b| && b[i + 1] == CR && b[i + 2] == LF))
  }

  /** idx is the first boundary, or -1. */
  ghost predicate IsFirst(b: bytes, idx: int) {
    && (idx == -1 || BoundaryAt(b, idx))
    && forall i :: 0 <= i < (if idx == -1 then |b| else idx) ==> !BoundaryAt(b, i)
  }

  method IndexDoubleNewline(b: bytes) returns (idx: int)
    ensures IsFirst(b, idx)
  {
    var i := 0;
    while i + 1 < |b|
      invariant 0 <= i <= |b|
      invariant forall j :: 0 <= j < i ==> !BoundaryAt(b, j)
    {
      if b[i] == LF && b[i + 1] == LF {
        return i;
      }
      if b[i] == LF && i + 2 < |b| && b[i + 1] == CR && b[i + 2] == LF {
        return i;
      }
      i := i + 1;
    }
    return -1;
  }

  function FirstFrom(b: bytes, i: nat): (idx: int)
    requires i <= |b|
    ensures idx == -1 || (i <= idx && BoundaryAt(b, idx))
    ensures forall j :: i <= j < (if idx == -1 then |b| else idx) ==> !BoundaryAt(b, j)
    decreases |b| - i
  {
    if i == |b| then -1 else if BoundaryAt(b, i) then i else FirstFrom(b, i + 1)
  }

  /** The events of a stream, each without its boundary's first two bytes, and what follows the last. */
  function Split(b: bytes): (seq<bytes>, bytes) {
    var idx := FirstFrom(b, 0);
    if idx == -1 then ([], b)
    else
      var (events, rest) := Split(b[idx + 2..]);
      ([b[..idx]] + events, rest)
  }

  predicate NonEmpty(e: bytes) { e != [] }

  /** What the client is to receive from a whole body, chunk by chunk: it depends on the bytes and on
      how they end, not on how they were read. */
  function Wanted(stream: bytes, end: End): seq<bytes> {
    var (events, rest) := Split(stream);
    Filter(NonEmpty, events) + if end.Eof? && rest != [] then [rest] else []
  }

  // ---- cutting as the bytes arrive ----

  /** A boundary found before all bytes have arrived is the first one of the longer stream as well. */
  lemma FirstStable(a: bytes, b: bytes, idx: int)
    requires idx != -1 && IsFirst(a, idx)
    ensures IsFirst(a + b, idx)
  {
    forall j | 0 <= j < idx ensures !BoundaryAt(a + b, j) {
      assert !BoundaryAt(a, j);
    }
  }

  lemma FirstUnique(b: bytes, i: int, j: int)
    requires IsFirst(b, i) && IsFirst(b, j)
    ensures i == j
  {
  }

  lemma SplitAt(b: bytes, idx: int)
    requires IsFirst(b, idx) && idx != -1
    ensures Split(b) == ([b[..idx]] + Split(b[idx + 2..]).0, Split(b[idx + 2..]).1)
  {
    FirstUnique(b, idx, FirstFrom(b, 0));
  }

  lemma {:induction false} SplitAppend(a: bytes, b: bytes)
    ensures Split(a + b).0 == Split(a).0 + Split(Split(a).1 + b).0
    ensures Split(a + b).1 == Split(Split(a).1 + b).1
    decreases |a|
  {
    var idx := FirstFrom(a, 0);
    if idx != -1 {
      FirstStable(a, b, idx);
      SplitAt(a + b, idx);
      assert (a + b)[idx + 2..] == a[idx + 2..] + b;
      assert (a + b)[..idx] == a[..idx];
      SplitAppend(a[idx + 2..], b);
    }
  }

  /** After seen, what was offered was all taken, and the rest is pending. */
  ghost predicate Progress(seen: bytes, pending: bytes, got0: seq<bytes>, room0: nat, got: seq<bytes>, room: nat) {
    && pending == Split(seen).1 && |Filter(NonEmpty, Split(seen).0)| <= room0
    && Offered(Filter(NonEmpty, Split(seen).0), got0, room0, got, room)
  }

  /** What draining does to the whole stream. */
  lemma ReadOne(seen: bytes, data: bytes, pending: bytes, got0: seq<bytes>, room0: nat,
                got: seq<bytes>, room: nat, got': seq<bytes>, room': nat)
    requires Progress(seen, pending, got0, room0, got, room)
    requires Offered(Filter(NonEmpty, Split(pending + data).0), got, room, got', room')
    ensures var sofar := Filter(NonEmpty, Split(seen + data).0);
            && Offered(sofar, got0, room0, got', room') && Split(seen + data).1 == Split(pending + data).1
            && (|sofar| <= room0 <==> |Filter(NonEmpty, Split(pending + data).0)| <= room)
  {
    SplitAppend(seen, data);
    FilterAppend(NonEmpty, Split(seen).0, Split(pending + data).0);
    OfferMore(Filter(NonEmpty, Split(seen).0), Filter(NonEmpty, Split(pending + data).0), got0, room0,
              got, room, got', room');
  }

  /** Every read but the last one returns bytes only (perhaps none); the last one returns bytes
      together with the end of the body. */
  method Consume(pieces: seq<bytes>, last: bytes, end: End, client: Client) returns (r: Outcome)
    modifies client
    ensures var wanted := Wanted(Flatten(pieces) + last, end);
            && Offered(wanted, old(client.got), old(client.room), client.got, client.room)
            && r == if |wanted| > old(client.room) then WriteError else Ended(end)
    ensures client.done == old(client.done)
  {
    var pending: bytes := [];
    var i := 0;
    ghost var seen: bytes := [];
    ghost var whole := Flatten(pieces) + last;
    assert pieces[..0] == [];
    while true
      invariant 0 <= i <= |pieces| && seen == Flatten(pieces[..i])
      invariant Progress(seen, pending, old(client.got), old(client.room), client.got, client.room)
      invariant client.done == old(client.done)
      decreases |pieces| - i
    {
      var data := if i < |pieces| then pieces[i] else last;
      ghost var tail := if i < |pieces| then Flatten(pieces[i + 1..]) + last else [];
      WholeParts(pieces, last, i);
      ghost var got, room, held := client.got, client.room, pending;
      pending := pending + data;
      var ok;
      ok, pending := Drain(pending, client);
      ReadOne(seen, data, held, old(client.got), old(client.room), got, room, client.got, client.room);
      seen := seen + data;
      if !ok {
        OfferedPrefix(whole, seen, tail, end, old(client.got), old(client.room), client.got, client.room);
        return WriteError;
      }
      if i == |pieces| {
        r := Flush(pending, end, client, whole, old(client.got), old(client.room));
        return;
      }
      assert pieces[..i + 1] == pieces[..i] + [pieces[i]];
      FlattenSnoc(pieces[..i], pieces[i]);
      i := i + 1;
    }
  }

  /** The end of the body: what is still pending goes out only after a clean end. */
  method Flush(pending: bytes, end: End, client: Client, ghost whole: bytes, ghost got0: seq<bytes>, ghost room0: nat)
    returns (r: Outcome)
    requires Progress(whole, pending, got0, room0, client.got, client.room)
    modifies client
    ensures Offered(Wanted(whole, end), got0, room0, client.got, client.room) && client.done == old(client.done)
    ensures r == if |Wanted(whole, end)| > room0 then WriteError else Ended(end)
  {
    ghost var sent := Filter(NonEmpty, Split(whole).0);
    if end.Eof? && pending != [] {
      ghost var got, room := client.got, client.room;
      var wrote := client.Write(pending);
      OfferMore(sent, [pending], got0, room0, got, room, client.got, client.room);
      return if wrote then Forwarded else WriteError;
    }
    assert Wanted(whole, end) == sent + [];
    return Ended(end);
  }

  lemma WholeParts(pieces: seq<bytes>, last: bytes, i: nat)
    requires i <= |pieces|
    ensures i < |pieces| ==>
              Flatten(pieces) + last == Flatten(pieces[..i]) + pieces[i] + (Flatten(pieces[i + 1..]) + last)
    ensures i == |pieces| ==> Flatten(pieces) + last == Flatten(pieces[..i]) + last
  {
    if i < |pieces| {
      FlattenAt(pieces, i);
      Regroup(Flatten(pieces[..i]), pieces[i], Flatten(pieces[i + 1..]), last);
    } else {
      assert pieces[..i] == pieces;
    }
  }

  lemma Regroup(a: bytes, b: bytes, c: bytes, d: bytes)
    ensures a + (b + c) + d == a + b + (c + d)
  {
  }

  /** What was refused while only part of the body had been read is refused of the whole body too. */
  lemma OfferedPrefix(whole: bytes, seen: bytes, tail: bytes, end: End, before: seq<bytes>, room: nat,
                      after: seq<bytes>, left: nat)
    requires whole == seen + tail
    requires var sofar := Filter(NonEmpty, Split(seen).0);
             |sofar| > room && Offered(sofar, before, room, after, left)
    ensures |Wanted(whole, end)| > room && Offered(Wanted(whole, end), before, room, after, left)
  {
    SplitAppend(seen, tail);
    FilterAppend(NonEmpty, Split(seen).0, Split(Split(seen).1 + tail).0);
    var sofar := Filter(NonEmpty, Split(seen).0);
    var more := Filter(NonEmpty, Split(Split(seen).1 + tail).0)
      + if end.Eof? && Split(whole).1 != [] then [Split(whole).1] else [];
    assert Wanted(whole, end) == sofar + more;
    OfferRefused(sofar, more, before, room, after, left);
  }

  function Chunk(e: bytes): seq<bytes> { if e == [] then [] else [e] }

  lemma CutOne(b: bytes, idx: int)
    requires IsFirst(b, idx) && idx != -1
    ensures Split(b).1 == Split(b[idx + 2..]).1
    ensures Filter(NonEmpty, Split(b).0) == Chunk(b[..idx]) + Filter(NonEmpty, Split(b[idx + 2..]).0)
  {
    SplitAt(b, idx);
    assert ([b[..idx]] + Split(b[idx + 2..]).0)[1..] == Split(b[idx + 2..]).0;
  }

  /** Of start, sent has been taken by the client and pending remains to be cut. */
  ghost predicate Cutting(start: bytes, sent: seq<bytes>, pending: bytes, got0: seq<bytes>, room0: nat,
                          got: seq<bytes>, room: nat)
  {
    && Split(start).1 == Split(pending).1
    && Filter(NonEmpty, Split(start).0) == sent + Filter(NonEmpty, Split(pending).0)
    && Offered(sent, got0, room0, got, room) && |sent| <= room0
  }

  lemma CutMore(start: bytes, sent: seq<bytes>, pending: bytes, idx: int, got0: seq<bytes>, room0: nat,
                got: seq<bytes>, room: nat, got': seq<bytes>, room': nat)
    requires Cutting(start, sent, pending, got0, room0, got, room)
    requires IsFirst(pending, idx) && idx != -1 && Offered(Chunk(pending[..idx]), got, room, got', room')
    ensures var sent' := sent + Chunk(pending[..idx]);
            if |sent'| <= room0 then Cutting(start, sent', pending[idx + 2..], got0, room0, got', room')
            else
              && Offered(Filter(NonEmpty, Split(start).0), got0, room0, got', room')
              && |Filter(NonEmpty, Split(start).0)| > room0
  {
    CutOne(pending, idx);
    var sent', later := sent + Chunk(pending[..idx]), Filter(NonEmpty, Split(pending[idx + 2..]).0);
    Assoc(sent, Chunk(pending[..idx]), later);
    OfferMore(sent, Chunk(pending[..idx]), got0, room0, got, room, got', room');
    if |sent'| > room0 {
      OfferRefused(sent', later, got0, room0, got', room');
    }
  }

  /** The inner loop: forward every complete event that is pending. */
  method Drain(start: bytes, client: Client) returns (ok: bool, pending: bytes)
    modifies client
    ensures var here := Filter(NonEmpty, Split(start).0);
            && Offered(here, old(client.got), old(client.room), client.got, client.room)
            && ok == (|here| <= old(client.room))
    ensures ok ==> pending == Split(start).1
    ensures client.done == old(client.done)
  {
    pending := start;
    ghost var sent: seq<bytes> := [];
    while true
      invariant Cutting(start, sent, pending, old(client.got), old(client.room), client.got, client.room)
      invariant client.done == old(client.done)
      decreases |pending|
    {
      var idx := IndexDoubleNewline(pending);
      if idx < 0 {
        FirstUnique(pending, idx, FirstFrom(pending, 0));
        assert sent + [] == sent;
        return true, pending;
      }
      var event := pending[..idx];
      ghost var was, got, room := pending, client.got, client.room;
      pending := pending[idx + 2..];
      if |event| > 0 {
        var wrote := client.Write(event);
        CutMore(start, sent, was, idx, old(client.got), old(client.room), got, room, client.got, client.room);
        if !wrote {
          return false, pending;
        }
      } else {
        assert got + [] == got;
        CutMore(start, sent, was, idx, old(client.got), old(client.room), got, room, client.got, client.room);
      }
      sent := sent + Chunk(event);
    }
  }

  // ---- what exactly is forwarded ----

  lemma {:induction false} FlattenNonEmpty(events: seq<bytes>)
    ensures Flatten(Filter(NonEmpty, events)) == Flatten(events)
  {
    if events != [] {
      FlattenNonEmpty(events[1..]);
      var later := Filter(NonEmpty, events[1..]);
      assert Filter(NonEmpty, events) == Chunk(events[0]) + later;
      FlattenAppend(Chunk(events[0]), later);
      assert events[0] != [] ==> Flatten([events[0]]) == events[0] + Flatten([]);
    }
  }

  /** All the bytes the client receives. */
  function ForwardedBytes(stream: bytes, end: End): bytes {
    Flatten(Wanted(stream, end))
  }

  lemma ForwardedAre(stream: bytes, end: End)
    ensures ForwardedBytes(stream, end) == Flatten(Split(stream).0) + if end.Eof? then Split(stream).1 else []
  {
    var (events, rest) := Split(stream);
    FlattenNonEmpty(events);
    var sent := Filter(NonEmpty, events);
    if end.Eof? && rest != [] {
      FlattenSnoc(sent, rest);
    } else {
      assert Wanted(stream, end) == sent;
      assert Flatten(events) + [] == Flatten(events);
    }
  }

  lemma Prepend(e: bytes, events: seq<bytes>, tail: bytes)
    ensures Flatten([e] + events) + tail == e + (Flatten(events) + tail)
  {
    assert ([e] + events)[1..] == events;
    assert e + Flatten(events) + tail == e + (Flatten(events) + tail);
  }

  /** The forwarded bytes follow the cuts. */
  lemma ForwardedStep(stream: bytes, end: End)
    ensures var idx := FirstFrom(stream, 0);
            ForwardedBytes(stream, end) ==
            if idx != -1 then stream[..idx] + ForwardedBytes(stream[idx + 2..], end)
            else if end.Eof? then stream else []
  {
    if FirstFrom(stream, 0) != -1 {
      ForwardedCons(stream, end, FirstFrom(stream, 0));
    } else {
      ForwardedAre(stream, end);
      assert Flatten(Split(stream).0) == [];
    }
  }

  lemma ForwardedCons(stream: bytes, end: End, idx: nat)
    requires FirstFrom(stream, 0) == idx
    ensures ForwardedBytes(stream, end) == stream[..idx] + ForwardedBytes(stream[idx + 2..], end)
  {
    var (events, rest) := Split(stream[idx + 2..]);
    SplitCons(stream);
    ForwardedAre(stream, end);
    ForwardedAre(stream[idx + 2..], end);
    Prepend(stream[..idx], events, if end.Eof? then rest else []);
  }

  lemma SplitCons(b: bytes)
    ensures var idx := FirstFrom(b, 0);
            idx != -1 ==> Split(b) == ([b[..idx]] + Split(b[idx + 2..]).0, Split(b[idx + 2..]).1)
  {
  }

  /** The two bytes dropped after each event. */
  function Cuts(b: bytes): seq<bytes> {
    var idx := FirstFrom(b, 0);
    if idx == -1 then [] else [b[idx..idx + 2]] + Cuts(b[idx + 2..])
  }

  function Interleave(events: seq<bytes>, cuts: seq<bytes>): bytes
    requires |events| == |cuts|
  {
    if events == [] then [] else events[0] + cuts[0] + Interleave(events[1..], cuts[1..])
  }

  lemma InterleaveCons(e: bytes, c: bytes, events: seq<bytes>, cuts: seq<bytes>, tail: bytes)
    requires |events| == |cuts|
    ensures Interleave([e] + events, [c] + cuts) + tail == e + c + (Interleave(events, cuts) + tail)
  {
    assert ([e] + events)[1..] == events && ([c] + cuts)[1..] == cuts;
    var m := Interleave(events, cuts);
    assert e + c + m + tail == e + c + (m + tail);
  }

  /** One cut per event, and only LF LF or LF CR is cut. */
  lemma {:induction false} CutsShape(b: bytes)
    ensures |Split(b).0| == |Cuts(b)|
    ensures forall c :: c in Cuts(b) ==> c == [LF, LF] || c == [LF, CR]
    decreases |b|
  {
    var idx := FirstFrom(b, 0);
    if idx != -1 {
      CutsShape(b[idx + 2..]);
      assert b[idx..idx + 2] == [b[idx], b[idx + 1]];
    }
  }

  /** The stream is its events, each followed by its cut, and then the rest; so the passthrough drops
      exactly those two bytes per event. */
  lemma {:induction false} StreamIsEventsAndCuts(b: bytes)
    ensures |Split(b).0| == |Cuts(b)| && b == Interleave(Split(b).0, Cuts(b)) + Split(b).1
    decreases |b|
  {
    CutsShape(b);
    var idx := FirstFrom(b, 0);
    if idx == -1 {
      assert Interleave(Split(b).0, Cuts(b)) == [];
    } else {
      var after := b[idx + 2..];
      var c := b[idx..idx + 2];
      StreamIsEventsAndCuts(after);
      InterleaveCons(b[..idx], c, Split(after).0, Cuts(after), Split(after).1);
      Rejoined(b, idx);
    }
  }

  lemma Rejoined(b: bytes, idx: nat)
    requires idx + 2 <= |b|
    ensures b[..idx] + b[idx..idx + 2] + b[idx + 2..] == b
  {
  }

  lemma {:induction false} SplitLengths(b: bytes)
    ensures |b| == |Flatten(Split(b).0)| + |Split(b).1| + 2 * |Split(b).0|
    decreases |b|
  {
    var idx := FirstFrom(b, 0);
    if idx != -1 {
      SplitLengths(b[idx + 2..]);
      assert Split(b).0[1..] == Split(b[idx + 2..]).0;
    }
  }

  ghost predicate BoundaryFree(b: bytes) {
    forall i :: 0 <= i < |b| ==> !BoundaryAt(b, i)
  }

  /** The output is the input exactly when there was nothing to cut. */
  lemma VerbatimExactly(stream: bytes)
    ensures ForwardedBytes(stream, Eof) == stream <==> BoundaryFree(stream)
  {
    ForwardedAre(stream, Eof);
    SplitLengths(stream);
    var idx := FirstFrom(stream, 0);
    if idx == -1 {
      assert Flatten(Split(stream).0) == [];
    } else {
      assert BoundaryAt(stream, idx);
      assert |Split(stream).0| > 0;
    }
  }

  /** Every byte other than CR and LF is forwarded exactly once, in order. */
  lemma {:induction false} OtherBytesForwarded(stream: bytes)
    ensures Filter(NotBreak, ForwardedBytes(stream, Eof)) == Filter(NotBreak, stream)
    decreases |stream|
  {
    ForwardedStep(stream, Eof);
    var idx := FirstFrom(stream, 0);
    if idx != -1 {
      var after := stream[idx + 2..];
      OtherBytesForwarded(after);
      var event := stream[..idx];
      var cut := stream[idx..idx + 2];
      FilterAppend(NotBreak, event, ForwardedBytes(after, Eof));
      assert stream == event + (cut + after);
      FilterAppend(NotBreak, event, cut + after);
      FilterAppend(NotBreak, cut, after);
      assert cut == [stream[idx], stream[idx + 1]] && !NotBreak(stream[idx]) && !NotBreak(stream[idx + 1]);
      assert cut[1..] == [stream[idx + 1]];
      assert Filter(NotBreak, cut) == [];
    }
  }

  /** Cannot form a boundary with what follows. */
  ghost predicate Sealed(e: bytes) {
    && BoundaryFree(e)
    && (|e| >= 1 ==> e[|e| - 1] != LF)
    && (|e| >= 2 ==> !(e[|e| - 2] == LF && e[|e| - 1] == CR))
  }

  lemma EventSealed(b: bytes, idx: int)
    requires IsFirst(b, idx) && idx != -1
    ensures Sealed(b[..idx])
  {
    forall i | 0 <= i < idx ensures !BoundaryAt(b[..idx], i) {
      assert !BoundaryAt(b, i);
    }
    if idx >= 1 {
      assert !BoundaryAt(b, idx - 1);
    }
    if idx >= 2 {
      assert !BoundaryAt(b, idx - 2);
    }
  }

  lemma SealedPrefix(e: bytes, b: bytes)
    requires Sealed(e) && BoundaryFree(b)
    ensures BoundaryFree(e + b)
  {
    forall i | 0 <= i < |e + b| ensures !BoundaryAt(e + b, i) {
      if i < |e| {
        assert !BoundaryAt(e, i);
      } else {
        assert !BoundaryAt(b, i - |e|);
      }
    }
  }

  /** For any body the bytes forwarded contain no blank line in a form that the splitter recognizes:
      neither LF LF nor LF CR LF. */
  lemma {:induction false} NoBlankLineForwarded(stream: bytes, end: End)
    ensures BoundaryFree(ForwardedBytes(stream, end))
    decreases |stream|
  {
    ForwardedStep(stream, end);
    var idx := FirstFrom(stream, 0);
    if idx != -1 {
      NoBlankLineForwarded(stream[idx + 2..], end);
      EventSealed(stream, idx);
      SealedPrefix(stream[..idx], ForwardedBytes(stream[idx + 2..], end));
    }
  }

  // ---- whether the client sees an event end ----

  /** A line end right after a line end, which is what dispatches an event (WHATWG HTML sections 9.2.5 and
      9.2.6): lines end in LF, in CR LF, or in a CR that no LF follows. */
  predicate EventEndAt(b: bytes, i: int) {
    && 0 <= i && i + 1 < |b|
    && ((b[i] == LF && (b[i + 1] == LF || b[i + 1] == CR)) || (b[i] == CR && b[i + 1] == CR))
  }

  ghost predicate EventEndFree(b: bytes) {
    forall i :: 0 <= i < |b| ==> !EventEndAt(b, i)
  }

  ghost predicate LfLines(b: bytes) {
    CR !in b
  }

  /** Every CR has its LF, and every LF its CR; the first byte may be the LF of a CR before b. */
  ghost predicate CrLfLines(b: bytes) {
    && (forall i :: 0 <= i < |b| && b[i] == CR ==> i + 1 < |b| && b[i + 1] == LF)
    && (forall i :: 0 < i < |b| && b[i] == LF ==> b[i - 1] == CR)
  }

  lemma {:induction false} ForwardedHasNoCr(stream: bytes)
    requires LfLines(stream)
    ensures LfLines(ForwardedBytes(stream, Eof))
    decreases |stream|
  {
    ForwardedStep(stream, Eof);
    var idx := FirstFrom(stream, 0);
    if idx != -1 {
      ForwardedHasNoCr(stream[idx + 2..]);
    }
  }

  lemma CutCrLf(stream: bytes, idx: int)
    requires CrLfLines(stream) && IsFirst(stream, idx) && idx != -1
    ensures idx + 2 < |stream| && stream[idx + 1] == CR && stream[idx + 2] == LF && CrLfLines(stream[idx + 2..])
    ensures idx > 0 ==> stream[idx - 1] == CR
  {
    assert stream[idx + 1] != LF;
  }

  /** After an event that ends in CR, what follows starts with its LF. */
  lemma CrLfJoins(event: bytes, rest: bytes)
    requires CrLfLines(rest) && rest != [] && rest[0] == LF && event != [] && event[|event| - 1] == CR
    requires forall i :: 0 <= i < |event| - 1 && event[i] == CR ==> event[i + 1] == LF
    requires forall i :: 0 < i < |event| && event[i] == LF ==> event[i - 1] == CR
    ensures CrLfLines(event + rest) && (event + rest)[0] == event[0]
  {
  }

  lemma {:induction false} ForwardedKeepsCrLf(stream: bytes)
    requires CrLfLines(stream)
    ensures CrLfLines(ForwardedBytes(stream, Eof))
    ensures stream != [] && stream[0] == LF ==>
              ForwardedBytes(stream, Eof) != [] && ForwardedBytes(stream, Eof)[0] == LF
    decreases |stream|
  {
    ForwardedStep(stream, Eof);
    var idx := FirstFrom(stream, 0);
    if idx != -1 {
      CutCrLf(stream, idx);
      ForwardedKeepsCrLf(stream[idx + 2..]);
      var event, rest := stream[..idx], ForwardedBytes(stream[idx + 2..], Eof);
      if idx > 0 {
        CrLfJoins(event, rest);
      } else {
        assert event + rest == rest;
      }
    }
  }

  /** When the lines of a body all end in LF, or all in CR LF, the client receives no event end at all. */
  lemma NoEventEndForwarded(stream: bytes)
    requires LfLines(stream) || CrLfLines(stream)
    ensures EventEndFree(ForwardedBytes(stream, Eof))
  {
    NoBlankLineForwarded(stream, Eof);
    var b := ForwardedBytes(stream, Eof);
    if LfLines(stream) {
      ForwardedHasNoCr(stream);
    } else {
      ForwardedKeepsCrLf(stream);
    }
    forall i | 0 <= i < |b| ensures !EventEndAt(b, i) {
      assert !BoundaryAt(b, i);
    }
  }

  /** An event end made of lone CRs is forwarded as it is. */
  lemma LoneCrForwarded(x: byte)
    requires x != LF
    ensures ForwardedBytes([x, CR, CR], Eof) == [x, CR, CR] && EventEndAt([x, CR, CR], 1)
  {
    VerbatimExactly([x, CR, CR]);
    assert BoundaryFree([x, CR, CR]);
  }
}
