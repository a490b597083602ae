/** Reading an event stream line by line, and the OpenAI-compatible stream on top of it. */
module LineReader {
  import opened Prelude
  import opened Bytes

  /** A buffered reader over what remains of a body. */
  class Reader {
    var rest: bytes
    const end: End

    constructor (body: bytes, end: End)
      ensures rest == body && this.end == end
    {
      rest := body;
      this.end := end;
    }

    /** Up to and including the next LF, or all that remains together with how the body ends. */
    method ReadLine() returns (line: bytes, err: Option<End>)
      modifies this
      ensures line == old(rest)[..LineLength(old(rest))] && rest == old(rest)[LineLength(old(rest))..]
      ensures err == if LF in old(rest) then None else Some(end)
    {
      var n := 0;
      while n < |rest| && rest[n] != LF
        invariant 0 <= n <= |rest| && rest == old(rest)
        invariant forall i :: 0 <= i < n ==> rest[i] != LF
      {
        n := n + 1;
      }
      LineEnds(rest, n);
      err := if n < |rest| then None else Some(end);
      n := if n < |rest| then n + 1 else n;
      line, rest := rest[..n], rest[n..];
    }
  }

  function LineLength(s: bytes): (n: nat)
    ensures n <= |s| && (LF in s ==> 0 < n && s[n - 1] == LF) && (LF !in s ==> n == |s|)
  {
    if s == [] then 0 else if s[0] == LF then 1 else 1 + LineLength(s[1..])
  }

  lemma {:induction false} LineEnds(s: bytes, n: nat)
    requires n <= |s| && (forall i :: 0 <= i < n ==> s[i] != LF) && (n < |s| ==> s[n] == LF)
    ensures LineLength(s) == (if n < |s| then n + 1 else n) && (LF in s <==> n < |s|)
  {
    if n > 0 {
      LineEnds(s[1..], n - 1);
    }
  }

  /** Nothing is left of the line once CR and LF are trimmed from its right. */
  predicate Blank(line: bytes) {
    forall i :: 0 <= i < |line| ==> !NotBreak(line[i])
  }

  lemma BlankMeaning(line: bytes)
    ensures Blank(line) <==> forall b :: b in line ==> b == 10 || b == 13
  {
    if forall b :: b in line ==> b == 10 || b == 13 {
      forall i | 0 <= i < |line| ensures !NotBreak(line[i]) {
        assert line[i] in line;
      }
    }
  }

  /** The chunks handed on, given what has been buffered since the last one. The last, unfinished line
      completes a chunk when it is blank; otherwise it is handed on only at a clean end. */
  function Chunks(s: bytes, buf: bytes, end: End): seq<bytes>
    decreases |s|
  {
    var line, after := s[..LineLength(s)], s[LineLength(s)..];
    var full := buf + line;
    if LF in s then
      if Blank(line) then [full] + Chunks(after, [], end) else Chunks(after, full, end)
    else if full != [] && (Blank(line) || end.Eof?) then [full]
    else []
  }

  /** The chunks offered to a client that fails after room writes. */
  function Tried(wanted: seq<bytes>, room: nat): seq<bytes> {
    if |wanted| <= room then wanted else wanted[..room + 1]
  }

  /** Everything sent so far was taken. */
  ghost predicate Served(sent: seq<bytes>, got0: seq<bytes>, room0: nat, done0: bool,
                         got: seq<bytes>, room: nat, done: bool)
  {
    && |sent| <= room0 && Offered(sent, got0, room0, got, room) && (done <==> done0 || Marked(sent))
  }

  /** The effect of offering a client all the chunks wanted. */
  ghost predicate Final(wanted: seq<bytes>, got0: seq<bytes>, room0: nat, done0: bool,
                        got: seq<bytes>, room: nat, done: bool)
  {
    Offered(wanted, got0, room0, got, room) && (done <==> done0 || Marked(Tried(wanted, room0)))
  }

  lemma ServeOne(sent: seq<bytes>, c: bytes, later: seq<bytes>, got0: seq<bytes>, room0: nat, done0: bool,
                 got: seq<bytes>, room: nat, done: bool, got': seq<bytes>, room': nat, done': bool)
    requires Served(sent, got0, room0, done0, got, room, done)
    requires Offered([c], got, room, got', room') && (done' <==> done || Contains(c, DONE_MARK))
    ensures room > 0 ==> Served(sent + [c], got0, room0, done0, got', room', done')
    ensures room == 0 ==>
              Final(sent + [c] + later, got0, room0, done0, got', room', done') && |sent + [c] + later| > room0
  {
    OfferMore(sent, [c], got0, room0, got, room, got', room');
    MarkedSnoc(sent, c);
    if room == 0 {
      OfferRefused(sent + [c], later, got0, room0, got', room');
      assert Tried(sent + [c] + later, room0) == sent + [c];
    }
  }

  lemma ServedIsFinal(sent: seq<bytes>, got0: seq<bytes>, room0: nat, done0: bool,
                      got: seq<bytes>, room: nat, done: bool)
    requires Served(sent, got0, room0, done0, got, room, done)
    ensures Final(sent, got0, room0, done0, got, room, done)
  {
  }

  lemma ChunksUnfold(s: bytes, buf: bytes, end: End)
    ensures var line, after := s[..LineLength(s)], s[LineLength(s)..];
            && (LF in s && Blank(line) ==> Chunks(s, buf, end) == [buf + line] + Chunks(after, [], end))
            && (LF in s && !Blank(line) ==> Chunks(s, buf, end) == Chunks(after, buf + line, end))
            && (LF !in s ==> line == s && after == [])
            && (LF !in s ==> Chunks(s, buf, end) == if buf + s != [] && (Blank(s) || end.Eof?) then [buf + s] else [])
            && (LF in s ==> line != [] && |after| < |s|)
  {
  }

  /** What one line adds, when sent has been handed on and all is to be. */
  lemma LineStep(s: bytes, buf: bytes, end: End, sent: seq<bytes>, all: seq<bytes>)
    requires all == sent + Chunks(s, buf, end)
    ensures var line, after := s[..LineLength(s)], s[LineLength(s)..];
            var full := buf + line;
            && (LF in s ==> line != [] && |after| < |s|)
            && (LF in s && Blank(line) ==> all == sent + [full] + Chunks(after, [], end))
            && (LF in s && !Blank(line) ==> all == sent + Chunks(after, full, end))
            && (LF !in s && full != [] && (Blank(line) || end.Eof?) ==> all == sent + [full] + [])
            && (LF !in s && !(full != [] && (Blank(line) || end.Eof?)) ==> all == sent)
  {
    ChunksUnfold(s, buf, end);
    var line, after := s[..LineLength(s)], s[LineLength(s)..];
    if LF in s && Blank(line) {
      Assoc(sent, [buf + line], Chunks(after, [], end));
    }
  }

  method Consume(status: int, body: bytes, end: End, client: Client) returns (r: Outcome)
    modifies client
    ensures !(200 <= status < 300) ==>
              r == BadStatus(status) && client.got == old(client.got) && client.done == old(client.done)
    ensures 200 <= status < 300 ==>
              var wanted := Chunks(body, [], end);
              && Final(wanted, old(client.got), old(client.room), old(client.done),
                       client.got, client.room, client.done)
              && r == if |wanted| > old(client.room) then WriteError else Ended(end)
  {
    if status < 200 || status >= 300 {
      return BadStatus(status);
    }
    var reader := new Reader(body, end);
    var buf: bytes := [];
    ghost var sent: seq<bytes> := [];
    ghost var all := Chunks(body, [], end);
    while true
      invariant fresh(reader) && reader.end == end
      invariant all == sent + Chunks(reader.rest, buf, end)
      invariant Served(sent, old(client.got), old(client.room), old(client.done), client.got, client.room, client.done)
      decreases |reader.rest|
    {
      LineStep(reader.rest, buf, end, sent, all);
      ghost var more, held := LF in reader.rest, buf;
      var line, err := reader.ReadLine();
      if |line| > 0 {
        buf := buf + line;
      }
      assert buf == held + line;
      if Blank(line) && |buf| > 0 {
        var ok := Hand(buf, client, sent, if more then Chunks(reader.rest, [], end) else [],
                       old(client.got), old(client.room), old(client.done));
        sent := sent + [buf];
        if !ok {
          return WriteError;
        }
        buf := [];
      }
      if err.Some? {
        if end.Eof? && |buf| > 0 {
          var ok := Hand(buf, client, sent, [], old(client.got), old(client.room), old(client.done));
          sent := sent + [buf];
          if !ok {
            return WriteError;
          }
        }
        assert all == sent;
        ServedIsFinal(sent, old(client.got), old(client.room), old(client.done), client.got, client.room, client.done);
        return Ended(end);
      }
    }
  }

  /** One callback, with what it means for all the chunks that are to be offered. */
  method Hand(c: bytes, client: Client, ghost sent: seq<bytes>, ghost later: seq<bytes>,
              ghost got0: seq<bytes>, ghost room0: nat, ghost done0: bool) returns (ok: bool)
    requires Served(sent, got0, room0, done0, client.got, client.room, client.done)
    modifies client
    ensures ok ==> Served(sent + [c], got0, room0, done0, client.got, client.room, client.done)
    ensures !ok ==> Final(sent + [c] + later, got0, room0, done0, client.got, client.room, client.done)
                    && |sent + [c] + later| > room0
  {
    ghost var got, room, done := client.got, client.room, client.done;
    ok := client.OnChunk(c);
    ServeOne(sent, c, later, got0, room0, done0, got, room, done, client.got, client.room, client.done);
  }

  // ---- what is handed on ----

  lemma {:induction false} ChunksAccount(s: bytes, buf: bytes)
    ensures Flatten(Chunks(s, buf, Eof)) == buf + s
    decreases |s|
  {
    var n := LineLength(s);
    var line, after := s[..n], s[n..];
    assert s == line + after;
    assert buf + s == (buf + line) + after;
    if LF in s {
      if Blank(line) {
        ChunksAccount(after, []);
        assert [] + after == after;
        assert Chunks(s, buf, Eof)[1..] == Chunks(after, [], Eof);
      } else {
        ChunksAccount(after, buf + line);
      }
    } else {
      assert after == [];
      if buf + line != [] {
        assert Flatten([buf + line]) == (buf + line) + Flatten([]);
      }
    }
  }

  /** On a clean end every byte is delivered exactly once, in order. */
  lemma EveryByteOnce(body: bytes)
    ensures Flatten(Chunks(body, [], Eof)) == body
  {
    ChunksAccount(body, []);
    assert [] + body == body;
  }

  /** A chunk that ends an event: its last line is blank. */
  ghost predicate EndsBlank(c: bytes) {
    exists k :: 0 <= k < |c| && Blank(c[k..]) && c[|c| - 1] == LF && (k == 0 || c[k - 1] == LF)
  }

  lemma BlankLineEnds(buf: bytes, line: bytes)
    requires line != [] && line[|line| - 1] == LF && Blank(line) && (buf == [] || buf[|buf| - 1] == LF)
    ensures EndsBlank(buf + line)
  {
    assert (buf + line)[|buf|..] == line;
  }

  /** Every chunk but the last ends with a blank line, and none is empty. */
  ghost predicate WellCut(cs: seq<bytes>) {
    && (forall i :: 0 <= i < |cs| ==> cs[i] != [])
    && (forall i :: 0 <= i < |cs| - 1 ==> EndsBlank(cs[i]))
  }

  lemma WellCutCons(c: bytes, cs: seq<bytes>)
    requires EndsBlank(c) && WellCut(cs)
    ensures WellCut([c] + cs)
  {
  }

  lemma {:induction false} ChunksWellCut(s: bytes, buf: bytes, end: End)
    requires buf == [] || buf[|buf| - 1] == LF
    ensures WellCut(Chunks(s, buf, end))
    decreases |s|
  {
    var line, after := s[..LineLength(s)], s[LineLength(s)..];
    ChunksUnfold(s, buf, end);
    if LF in s {
      if Blank(line) {
        ChunksWellCut(after, [], end);
        BlankLineEnds(buf, line);
        WellCutCons(buf + line, Chunks(after, [], end));
      } else {
        ChunksWellCut(after, buf + line, end);
      }
    }
  }

  /** What follows the last line end. */
  function Unfinished(s: bytes): bytes
    decreases |s|
  {
    if LF in s then Unfinished(s[LineLength(s)..]) else s
  }

  /** When reading fails instead of ending, the same chunks are delivered, except that a last chunk
      whose last line is unfinished and not blank is withheld. */
  lemma {:induction false} FailureWithholds(s: bytes, buf: bytes)
    ensures var clean := Chunks(s, buf, Eof);
            var failed := Chunks(s, buf, ReadFailed);
            if Blank(Unfinished(s)) then failed == clean
            else clean != [] && failed == clean[..|clean| - 1]
    decreases |s|
  {
    var line, after := s[..LineLength(s)], s[LineLength(s)..];
    ChunksUnfold(s, buf, Eof);
    ChunksUnfold(s, buf, ReadFailed);
    if LF in s {
      FailureWithholds(after, if Blank(line) then [] else buf + line);
    }
  }

  // ---- truncation detection ----

  lemma ContainsPart(a: bytes, b: bytes, m: bytes)
    ensures Contains(a, m) || Contains(b, m) ==> Contains(a + b, m)
  {
    if Contains(a, m) {
      var i :| OccursAt(a, m, i);
      assert (a + b)[i..i + |m|] == a[i..i + |m|];
      assert OccursAt(a + b, m, i);
    }
    if Contains(b, m) {
      var i :| OccursAt(b, m, i);
      assert (a + b)[|a| + i..|a| + i + |m|] == b[i..i + |m|];
      assert OccursAt(a + b, m, |a| + i);
    }
  }

  /** An occurrence of a mark without LF lies on one side of a line end. */
  lemma NoStraddle(a: bytes, b: bytes, m: bytes)
    requires a == [] || a[|a| - 1] == LF
    requires LF !in m && m != []
    ensures Contains(a + b, m) <==> Contains(a, m) || Contains(b, m)
  {
    ContainsPart(a, b, m);
    if Contains(a + b, m) {
      var i :| OccursAt(a + b, m, i);
      var k := |a| - 1;
      forall x | i <= x < i + |m| ensures (a + b)[x] != LF {
        assert (a + b)[i..i + |m|][x - i] == m[x - i];
      }
      assert a != [] ==> (a + b)[k] == LF;
      if i + |m| <= k + 1 {
        assert a[i..i + |m|] == (a + b)[i..i + |m|];
        assert OccursAt(a, m, i);
      } else {
        assert b[i - |a|..i - |a| + |m|] == (a + b)[i..i + |m|];
        assert OccursAt(b, m, i - |a|);
      }
    }
  }

  lemma {:induction false} MarkedIffContains(cs: seq<bytes>)
    requires forall i :: 0 <= i < |cs| - 1 ==> cs[i] == [] || cs[i][|cs[i]| - 1] == LF
    ensures Marked(cs) <==> Contains(Flatten(cs), DONE_MARK)
  {
    if cs == [] {
      assert !Contains([], DONE_MARK);
    } else {
      MarkedIffContains(cs[1..]);
      assert cs == [cs[0]] + cs[1..];
      MarkedCons(cs);
      if |cs| > 1 {
        NoStraddle(cs[0], Flatten(cs[1..]), DONE_MARK);
      } else {
        assert Flatten(cs) == cs[0];
      }
    }
  }

  lemma MarkedCons(cs: seq<bytes>)
    requires cs != []
    ensures Marked(cs) <==> Contains(cs[0], DONE_MARK) || Marked(cs[1..])
  {
    if Marked(cs[1..]) {
      var i :| 0 <= i < |cs[1..]| && Contains(cs[1..][i], DONE_MARK);
      assert Contains(cs[i + 1], DONE_MARK);
    }
    if Marked(cs) {
      var i :| 0 <= i < |cs| && Contains(cs[i], DONE_MARK);
      assert i > 0 ==> cs[1..][i - 1] == cs[i];
    }
  }

  /** No occurrence of the end mark is lost between two chunks. */
  lemma DoneSeenIffInBody(body: bytes)
    ensures Marked(Chunks(body, [], Eof)) <==> Contains(body, DONE_MARK)
  {
    var cs := Chunks(body, [], Eof);
    ChunksWellCut(body, [], Eof);
    forall i | 0 <= i < |cs| - 1 ensures cs[i] == [] || cs[i][|cs[i]| - 1] == LF {
      assert EndsBlank(cs[i]);
    }
    MarkedIffContains(cs);
    EveryByteOnce(body);
  }

  datatype StreamResult = Completed | Truncated | Failed(cause: Outcome)

  /** ForwardStream of the OpenAI-compatible connector: it succeeds exactly when the status is a
      success, the client takes every chunk, the body ends cleanly and contains the end mark. */
  method ForwardStream(status: int, body: bytes, end: End, client: Client) returns (r: StreamResult)
    modifies client
    ensures 200 <= status < 300 ==>
              Offered(Chunks(body, [], end), old(client.got), old(client.room), client.got, client.room)
    ensures !(200 <= status < 300) ==> r == Failed(BadStatus(status)) && client.got == old(client.got)
    ensures r.Completed? <==>
              && 200 <= status < 300 && end.Eof? && |Chunks(body, [], end)| <= old(client.room)
              && Contains(body, DONE_MARK)
    ensures r.Truncated? <==>
              && 200 <= status < 300 && end.Eof? && |Chunks(body, [], end)| <= old(client.room)
              && !Contains(body, DONE_MARK)
    ensures r.Failed? && 200 <= status < 300 ==>
              r.cause == if |Chunks(body, [], end)| > old(client.room) then WriteError else ReadError
  {
    client.done := false;
    var outcome := Consume(status, body, end, client);
    DoneSeenIffInBody(body);
    if outcome != Forwarded {
      return Failed(outcome);
    }
    if !client.done {
      return Truncated;
    }
    return Completed;
  }
}
