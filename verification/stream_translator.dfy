/** Anthropic answers turned into OpenAI-compatible ones: a whole response at once, or event by event. */
module StreamTranslator {
  import opened Prelude
  import opened Bytes

  datatype Usage = Usage(input: int, output: int)

  /** A stream event after JSON decoding. Other is any event that is ignored: unknown type, no data
      line, the end mark, or data that does not decode. */
  datatype Event =
    | MessageStart(id: Option<string>)
    | BlockDelta(kind: string, text: string)
    | MessageDelta(stopReason: string, usage: Option<Usage>)
    | MessageStop
    | Other

  /** An emitted chunk: finish is empty until the end. */
  datatype Chunk = Chunk(id: string, content: string, finish: string)

  datatype Block = Block(kind: string, text: string)
  datatype Response = Response(id: string, content: seq<Block>, stopReason: string)
  datatype Reply = Reply(id: string, content: string, finish: string)

  function MapStopReason(r: string): string {
    match r
    case "end_turn" => "stop"
    case "stop_sequence" => "stop"
    case "max_tokens" => "length"
    case "tool_use" => "tool_calls"
    case _ => "stop"
  }

  lemma FinishNeverEmpty(r: string)
    ensures MapStopReason(r) in {"stop", "length", "tool_calls"} && MapStopReason(r) != ""
    ensures MapStopReason(r) == "length" <==> r == "max_tokens"
    ensures MapStopReason(r) == "tool_calls" <==> r == "tool_use"
  {
  }

  // ---- the whole response at once ----

  function BlocksText(blocks: seq<Block>): string {
    if blocks == [] then "" else (if blocks[0].kind == "text" then blocks[0].text else "") + BlocksText(blocks[1..])
  }

  lemma {:induction false} BlocksTextSnoc(blocks: seq<Block>, b: Block)
    ensures BlocksText(blocks + [b]) == BlocksText(blocks) + if b.kind == "text" then b.text else ""
  {
    if blocks == [] {
      assert [b][1..] == [];
    } else {
      BlocksTextSnoc(blocks[1..], b);
      assert (blocks + [b])[1..] == blocks[1..] + [b];
    }
  }

  function Batch(resp: Response): Reply {
    Reply(resp.id, BlocksText(resp.content), MapStopReason(resp.stopReason))
  }

  method ConvertFromAnthropic(resp: Response) returns (reply: Reply)
    ensures reply == Batch(resp)
  {
    var text := "";
    for i := 0 to |resp.content|
      invariant text == BlocksText(resp.content[..i])
    {
      BlocksTextSnoc(resp.content[..i], resp.content[i]);
      assert resp.content[..i + 1] == resp.content[..i] + [resp.content[i]];
      if resp.content[i].kind == "text" {
        text := text + resp.content[i].text;
      }
    }
    assert resp.content[..|resp.content|] == resp.content;
    var finish := MapStopReason(resp.stopReason);
    reply := Reply(resp.id, text, finish);
  }

  // ---- event by event ----

  /** What the translator remembers between events. */
  datatype Memory = Memory(id: string, usage: Option<Usage>, finished: bool)

  const BLANK := Memory("", None, false)

  predicate Finishing(ev: Event) {
    ev.MessageDelta? && ev.stopReason != ""
  }

  function Emitted(m: Memory, ev: Event): seq<Chunk> {
    match ev
    case BlockDelta(kind, text) => if kind == "text_delta" && text != "" then [Chunk(m.id, text, "")] else []
    case MessageDelta(stop, _) => if stop != "" then [Chunk(m.id, "", MapStopReason(stop))] else []
    case MessageStop => if !m.finished then [Chunk(m.id, "", "stop")] else []
    case _ => []
  }

  function Next(m: Memory, ev: Event): Memory {
    match ev
    case MessageStart(id) => if id.Some? then m.(id := id.value) else m
    case MessageDelta(stop, usage) =>
      m.(finished := m.finished || stop != "", usage := if m.usage.None? then usage else m.usage)
    case _ => m
  }

  /** The events in turn, for a client that takes room chunks: the memory after them, the chunks the
      client got, and whether none was refused. A refused chunk leaves the memory as it was. */
  function Fold(m: Memory, events: seq<Event>, room: nat): (Memory, seq<Chunk>, bool)
    decreases events
  {
    if events == [] then (m, [], true)
    else
      var cs := Emitted(m, events[0]);
      if |cs| > room then (m, [], false)
      else
        var (m', rest, ok) := Fold(Next(m, events[0]), events[1..], room - |cs|);
        (m', cs + rest, ok)
  }

  datatype Verdict = Complete | Truncated | Failed(cause: Outcome)

  /** finished decides alone: an error of any kind before the finish is reported as truncation. */
  function Judge(finished: bool, outcome: Outcome): Verdict {
    if !finished then Truncated else if outcome == Forwarded then Complete else Failed(outcome)
  }

  class Translator {
    var id: string
    var usage: Option<Usage>
    var finished: bool
    var out: seq<Chunk>
    var room: nat

    constructor (room: nat)
      ensures Mind() == BLANK && out == [] && this.room == room
    {
      id, usage, finished, out := "", None, false, [];
      this.room := room;
    }

    function Mind(): Memory
      reads this
    {
      Memory(id, usage, finished)
    }

    method EmitChunk(content: string, finish: string) returns (ok: bool)
      modifies this`out, this`room
      ensures ok == (old(room) > 0)
      ensures out == if ok then old(out) + [Chunk(id, content, finish)] else old(out)
      ensures room == if ok then old(room) - 1 else 0
    {
      if room == 0 {
        return false;
      }
      out := out + [Chunk(id, content, finish)];
      room := room - 1;
      return true;
    }

    /** The callback for one event. */
    method Handle(ev: Event) returns (ok: bool)
      modifies this
      ensures ok == (|Emitted(old(Mind()), ev)| <= old(room))
      ensures ok ==> Mind() == Next(old(Mind()), ev) && out == old(out) + Emitted(old(Mind()), ev)
                     && room == old(room) - |Emitted(old(Mind()), ev)|
      ensures !ok ==> Mind() == old(Mind()) && out == old(out)
    {
      ok := true;
      match ev
      case MessageStart(start) =>
        if start.Some? {
          id := start.value;
        }
      case BlockDelta(kind, text) =>
        if kind == "text_delta" && text != "" {
          ok := EmitChunk(text, "");
        }
      case MessageDelta(stop, u) =>
        if stop != "" {
          ok := EmitChunk("", MapStopReason(stop));
          if !ok {
            return;
          }
          finished := true;
        }
        if u.Some? && usage.None? {
          usage := u;
        }
      case MessageStop =>
        if !finished {
          ok := EmitChunk("", "stop");
        }
      case Other =>
    }

    /** The events of one answer, in the order consumeSSE hands them over, until one callback fails. */
    method Deliver(events: seq<Event>) returns (ok: bool)
      modifies this
      ensures (Mind(), out, ok) == Onto(old(out), Fold(old(Mind()), events, old(room)))
    {
      var i := 0;
      while i < |events|
        invariant 0 <= i <= |events|
        invariant Onto(old(out), Fold(old(Mind()), events, old(room))) == Onto(out, Fold(Mind(), events[i..], room))
      {
        assert events[i..][0] == events[i] && events[i..][1..] == events[i + 1..];
        FoldUnfold(Mind(), events[i..], room, out);
        ok := Handle(events[i]);
        if !ok {
          return;
        }
        i := i + 1;
      }
      assert events[i..] == [] && out + [] == out;
      ok := true;
    }

    method Translate(status: int, events: seq<Event>, end: End) returns (u: Usage, v: Verdict)
      modifies this
      ensures var (m, chunks, ok) :=
                if 200 <= status < 300 then Fold(old(Mind()), events, old(room)) else (old(Mind()), [], true);
              && Mind().finished == m.finished && Mind().id == m.id && out == old(out) + chunks
              && u == (if m.usage.Some? then m.usage.value else Usage(0, 0))
              && v == Judge(m.finished, if !(200 <= status < 300) then BadStatus(status)
                                        else if !ok then WriteError else Ended(end))
      ensures old(Mind()) == BLANK && 200 <= status < 300 && |events| <= old(room) ==>
                && u == (if FirstUsage(events).Some? then FirstUsage(events).value else Usage(0, 0))
                && Mind().id == LastId("", events)
    {
      FoldUsage(Mind(), events, room);
      if |events| <= room {
        FoldLastId(Mind(), events, room);
      }
      var outcome := Ended(end);
      if status < 200 || status >= 300 {
        outcome := BadStatus(status);
      } else {
        var ok := Deliver(events);
        if !ok {
          outcome := WriteError;
        }
      }
      if usage.None? {
        usage := Some(Usage(0, 0));
      }
      u := usage.value;
      if !finished {
        return u, Truncated;
      }
      return u, if outcome == Forwarded then Complete else Failed(outcome);
    }
  }

  /** A fold's result for a client that already has the chunks out. */
  function Onto(out: seq<Chunk>, f: (Memory, seq<Chunk>, bool)): (Memory, seq<Chunk>, bool) {
    (f.0, out + f.1, f.2)
  }

  lemma FoldUnfold(m: Memory, events: seq<Event>, room: nat, out: seq<Chunk>)
    requires events != []
    ensures var cs := Emitted(m, events[0]);
            && |cs| <= 1
            && (|cs| <= room ==>
                  Onto(out, Fold(m, events, room))
                  == Onto(out + cs, Fold(Next(m, events[0]), events[1..], room - |cs|)))
            && (|cs| > room ==> Onto(out, Fold(m, events, room)) == (m, out, false))
  {
    var cs := Emitted(m, events[0]);
    if |cs| <= room {
      var rest := Fold(Next(m, events[0]), events[1..], room - |cs|).1;
      assert out + (cs + rest) == out + cs + rest;
    } else {
      assert out + [] == out;
    }
  }

  // ---- what the chunks add up to ----

  function ChunksText(chunks: seq<Chunk>): string {
    if chunks == [] then "" else chunks[0].content + ChunksText(chunks[1..])
  }

  function Finishes(chunks: seq<Chunk>): seq<string> {
    if chunks == [] then [] else (if chunks[0].finish != "" then [chunks[0].finish] else []) + Finishes(chunks[1..])
  }

  function DeltaText(events: seq<Event>): string {
    if events == [] then ""
    else (if events[0].BlockDelta? && events[0].kind == "text_delta" then events[0].text else "")
         + DeltaText(events[1..])
  }

  lemma {:induction false} ChunksTextAppend(a: seq<Chunk>, b: seq<Chunk>)
    ensures ChunksText(a + b) == ChunksText(a) + ChunksText(b)
  {
    if a == [] {
      assert a + b == b;
    } else {
      ChunksTextAppend(a[1..], b);
      Cons(a[0], a, b);
      Assoc(a[0].content, ChunksText(a[1..]), ChunksText(b));
    }
  }

  lemma {:induction false} FinishesAppend(a: seq<Chunk>, b: seq<Chunk>)
    ensures Finishes(a + b) == Finishes(a) + Finishes(b)
  {
    if a == [] {
      assert a + b == b;
    } else {
      FinishesAppend(a[1..], b);
      Cons(a[0], a, b);
      Assoc(if a[0].finish != "" then [a[0].finish] else [], Finishes(a[1..]), Finishes(b));
    }
  }

  lemma EmittedText(m: Memory, ev: Event)
    ensures ChunksText(Emitted(m, ev)) == if ev.BlockDelta? && ev.kind == "text_delta" then ev.text else ""
    ensures Finishes(Emitted(m, ev)) ==
            if Finishing(ev) then [MapStopReason(ev.stopReason)]
            else if ev.MessageStop? && !m.finished then ["stop"] else []
  {
    FinishNeverEmpty(if ev.MessageDelta? then ev.stopReason else "");
    var cs := Emitted(m, ev);
    assert cs != [] ==> cs[1..] == [];
  }

  /** One event of a fold that has room for all. */
  lemma FoldStep(m: Memory, events: seq<Event>, room: nat)
    requires events != [] && |events| <= room
    ensures var cs := Emitted(m, events[0]);
            |events[1..]| <= room - |cs|
            && (var f, g := Fold(Next(m, events[0]), events[1..], room - |cs|), Fold(m, events, room);
                && g.0 == f.0 && g.2 == f.2
                && ChunksText(g.1) == ChunksText(cs) + ChunksText(f.1)
                && Finishes(g.1) == Finishes(cs) + Finishes(f.1))
  {
    var cs := Emitted(m, events[0]);
    var f := Fold(Next(m, events[0]), events[1..], room - |cs|);
    ChunksTextAppend(cs, f.1);
    FinishesAppend(cs, f.1);
    assert Fold(m, events, room) == (f.0, cs + f.1, f.2);
  }

  lemma {:induction false} FoldText(m: Memory, events: seq<Event>, room: nat)
    requires |events| <= room
    ensures Fold(m, events, room).2 && ChunksText(Fold(m, events, room).1) == DeltaText(events)
    decreases events
  {
    if events != [] {
      FoldStep(m, events, room);
      FoldText(Next(m, events[0]), events[1..], room - |Emitted(m, events[0])|);
      EmittedText(m, events[0]);
    }
  }

  lemma {:induction false} FoldFinished(m: Memory, events: seq<Event>, room: nat)
    requires |events| <= room
    ensures Fold(m, events, room).0.finished <==>
            m.finished || exists i :: 0 <= i < |events| && Finishing(events[i])
    decreases events
  {
    if events != [] {
      FoldFinished(Next(m, events[0]), events[1..], room - |Emitted(m, events[0])|);
      ExistsCons(events);
    }
  }

  /** For every stream: the text is that of its text deltas; the translator has finished exactly when a
      stop reason has come. */
  lemma FoldMeaning(m: Memory, events: seq<Event>, room: nat)
    requires |events| <= room
    ensures var (m', chunks, ok) := Fold(m, events, room);
            && ok && ChunksText(chunks) == DeltaText(events)
            && (m'.finished <==> m.finished || exists i :: 0 <= i < |events| && Finishing(events[i]))
  {
    FoldText(m, events, room);
    FoldFinished(m, events, room);
  }

  /** The usage of the first message_delta that carries any. */
  function FirstUsage(events: seq<Event>): Option<Usage> {
    if events == [] then None
    else if events[0].MessageDelta? && events[0].usage.Some? then events[0].usage
    else FirstUsage(events[1..])
  }

  /** For a client that takes everything, the usage is the one first given, and none only if none is. */
  lemma {:induction false} FoldUsage(m: Memory, events: seq<Event>, room: nat)
    ensures |events| <= room ==>
              Fold(m, events, room).0.usage == if m.usage.Some? then m.usage else FirstUsage(events)
    decreases events
  {
    if events != [] && |events| <= room {
      FoldUsage(Next(m, events[0]), events[1..], room - |Emitted(m, events[0])|);
    }
  }

  lemma {:induction false} FirstUsageAppend(a: seq<Event>, b: seq<Event>)
    requires forall i :: 0 <= i < |a| ==> !a[i].MessageDelta?
    ensures FirstUsage(a + b) == FirstUsage(b)
  {
    if a == [] {
      assert a + b == b;
    } else {
      FirstUsageAppend(a[1..], b);
      Cons(a[0], a, b);
    }
  }

  /** The id that the last message_start with one gives. */
  function LastId(id: string, events: seq<Event>): string
    decreases events
  {
    if events == [] then id
    else if events[0].MessageStart? && events[0].id.Some? then LastId(events[0].id.value, events[1..])
    else LastId(id, events[1..])
  }

  lemma {:induction false} FoldLastId(m: Memory, events: seq<Event>, room: nat)
    requires |events| <= room
    ensures Fold(m, events, room).0.id == LastId(m.id, events)
    decreases events
  {
    if events != [] {
      FoldLastId(Next(m, events[0]), events[1..], room - |Emitted(m, events[0])|);
    }
  }

  lemma ExistsCons(events: seq<Event>)
    requires events != []
    ensures (exists i :: 0 <= i < |events| && Finishing(events[i])) <==>
            Finishing(events[0]) || exists i :: 0 <= i < |events[1..]| && Finishing(events[1..][i])
  {
    if i :| 0 <= i < |events[1..]| && Finishing(events[1..][i]) {
      assert Finishing(events[i + 1]);
    }
    if i :| 0 <= i < |events| && Finishing(events[i]) {
      assert i > 0 ==> events[1..][i - 1] == events[i];
    }
  }

  /** The finishes a stream produces: one per stop reason, and one per message_stop that comes before
      the first of them. */
  function ExpectedFinishes(finished: bool, events: seq<Event>): seq<string>
    decreases events
  {
    if events == [] then []
    else if Finishing(events[0]) then [MapStopReason(events[0].stopReason)] + ExpectedFinishes(true, events[1..])
    else (if events[0].MessageStop? && !finished then ["stop"] else []) + ExpectedFinishes(finished, events[1..])
  }

  lemma {:induction false} FinishesMeaning(m: Memory, events: seq<Event>, room: nat)
    requires |events| <= room
    ensures Finishes(Fold(m, events, room).1) == ExpectedFinishes(m.finished, events)
    decreases events
  {
    if events != [] {
      var cs := Emitted(m, events[0]);
      FoldStep(m, events, room);
      FinishesMeaning(Next(m, events[0]), events[1..], room - |cs|);
      EmittedText(m, events[0]);
      assert Finishing(events[0]) ==> Next(m, events[0]).finished;
    }
  }

  lemma {:induction false} FoldIds(m: Memory, events: seq<Event>, room: nat)
    requires forall i :: 0 <= i < |events| ==> !events[i].MessageStart?
    ensures var (m', chunks, _) := Fold(m, events, room);
            m'.id == m.id && forall i :: 0 <= i < |chunks| ==> chunks[i].id == m.id
    decreases events
  {
    if events != [] && |Emitted(m, events[0])| <= room {
      FoldIds(Next(m, events[0]), events[1..], room - |Emitted(m, events[0])|);
    }
  }

  /** events are a response as it is streamed: its id, its text cut into any deltas among events that
      are ignored, its stop reason, and the closing event. */
  ghost predicate Renders(events: seq<Event>, resp: Response, body: seq<Event>, usage: Option<Usage>) {
    && events == [MessageStart(Some(resp.id))] + body + [MessageDelta(resp.stopReason, usage), MessageStop]
    && (forall i :: 0 <= i < |body| ==> body[i].BlockDelta? || body[i].Other?)
    && DeltaText(body) == BlocksText(resp.content)
  }

  lemma {:induction false} DeltaTextAppend(a: seq<Event>, b: seq<Event>)
    ensures DeltaText(a + b) == DeltaText(a) + DeltaText(b)
  {
    if a == [] {
      assert a + b == b;
    } else {
      DeltaTextAppend(a[1..], b);
      Cons(a[0], a, b);
      Assoc(if a[0].BlockDelta? && a[0].kind == "text_delta" then a[0].text else "", DeltaText(a[1..]), DeltaText(b));
    }
  }

  lemma {:induction false} ExpectedFinishesBody(body: seq<Event>, rest: seq<Event>)
    requires forall i :: 0 <= i < |body| ==> body[i].BlockDelta? || body[i].Other?
    ensures ExpectedFinishes(false, body + rest) == ExpectedFinishes(false, rest)
  {
    if body == [] {
      assert body + rest == rest;
    } else {
      ExpectedFinishesBody(body[1..], rest);
      assert (body + rest)[1..] == body[1..] + rest;
    }
  }

  lemma TailMeaning(stop: string, usage: Option<Usage>)
    requires stop != ""
    ensures var tail := [MessageDelta(stop, usage), MessageStop];
            DeltaText(tail) == "" && ExpectedFinishes(false, tail) == [MapStopReason(stop)]
  {
    var tail := [MessageDelta(stop, usage), MessageStop];
    var last := tail[1..];
    assert last == [MessageStop] && last[1..] == [];
    assert DeltaText(last) == "" + DeltaText([]);
    assert ExpectedFinishes(true, last) == [];
  }

  lemma RenderedUsage(resp: Response, events: seq<Event>, body: seq<Event>, usage: Option<Usage>, room: nat)
    requires Renders(events, resp, body, usage) && |events| <= room
    ensures Fold(BLANK, events, room).0.usage == usage
  {
    var start, tail := [MessageStart(Some(resp.id))], [MessageDelta(resp.stopReason, usage), MessageStop];
    FoldUsage(BLANK, events, room);
    FirstUsageAppend(start + body, tail);
    assert tail[1..] == [MessageStop] && [MessageStop][1..] == [];
  }

  /** Streaming equals batch: however the text was cut, the chunks carry the text, the single finish
      reason and the id of the converted whole response, and the stream is complete and has its usage. */
  lemma StreamEqualsBatch(resp: Response, events: seq<Event>, body: seq<Event>, usage: Option<Usage>, room: nat)
    requires resp.stopReason != "" && Renders(events, resp, body, usage) && |events| <= room
    ensures var (m, chunks, ok) := Fold(BLANK, events, room);
            var reply := Batch(resp);
            && ok && Judge(m.finished, Forwarded) == Complete
            && ChunksText(chunks) == reply.content
            && Finishes(chunks) == [reply.finish] && m.usage == usage
            && forall i :: 0 <= i < |chunks| ==> chunks[i].id == reply.id
  {
    var tail := [MessageDelta(resp.stopReason, usage), MessageStop];
    var k := |body| + 1;
    assert events[1..] == body + tail;
    FoldMeaning(BLANK, events, room);
    assert Finishing(events[k]);
    DeltaTextAppend(body, tail);
    TailMeaning(resp.stopReason, usage);
    FinishesMeaning(BLANK, events, room);
    ExpectedFinishesBody(body, tail);
    FoldIds(Next(BLANK, events[0]), events[1..], room);
    RenderedUsage(resp, events, body, usage, room);
  }

  /** A stream cut anywhere yields a prefix of that text, and counts as truncated exactly when it was cut
      before the stop reason. */
  lemma CutStream(resp: Response, events: seq<Event>, body: seq<Event>, usage: Option<Usage>, k: nat, room: nat)
    requires resp.stopReason != "" && Renders(events, resp, body, usage) && k <= |events| <= room
    ensures var (m, chunks, ok) := Fold(BLANK, events[..k], room);
            && ok && ChunksText(chunks) <= Batch(resp).content
            && (Judge(m.finished, Forwarded) == Truncated <==> k <= 1 + |body|)
  {
    FoldMeaning(BLANK, events[..k], room);
    FoldMeaning(BLANK, events, room);
    StreamEqualsBatch(resp, events, body, usage, room);
    SplitAt(events, k);
    DeltaTextAppend(events[..k], events[k..]);
    FinishingAt(resp, events, body, usage);
    CutFinishes(events, 1 + |body|, k);
  }

  /** Only the event after the body finishes. */
  lemma FinishingAt(resp: Response, events: seq<Event>, body: seq<Event>, usage: Option<Usage>)
    requires resp.stopReason != "" && Renders(events, resp, body, usage)
    ensures forall i :: 0 <= i < |events| ==> (Finishing(events[i]) <==> i == 1 + |body|)
  {
    forall i | 0 <= i < |events| ensures Finishing(events[i]) <==> i == 1 + |body| {
      if 1 <= i <= |body| {
        assert events[i] == body[i - 1];
      }
    }
  }

  lemma CutFinishes(events: seq<Event>, n: nat, k: nat)
    requires k <= |events| && n < |events|
    requires forall i :: 0 <= i < |events| ==> (Finishing(events[i]) <==> i == n)
    ensures (exists i :: 0 <= i < |events[..k]| && Finishing(events[..k][i])) <==> k > n
  {
    if k > n {
      assert Finishing(events[..k][n]);
    }
  }

  /** Whatever went wrong, the client included: without a stop reason the verdict is truncation, so a
      refused status never shows. */
  lemma ErrorsBecomeTruncation(events: seq<Event>, outcome: Outcome, room: nat)
    requires |events| <= room && forall i :: 0 <= i < |events| ==> !Finishing(events[i])
    ensures Judge(Fold(BLANK, events, room).0.finished, outcome) == Truncated
    ensures Judge(BLANK.finished, outcome) == Truncated
  {
    FoldMeaning(BLANK, events, room);
  }

  /** A stream that ends without a stop reason is given a finish chunk, and reported as truncated. */
  lemma ClosedWithoutReason(body: seq<Event>, room: nat)
    requires forall i :: 0 <= i < |body| ==> body[i].BlockDelta? || body[i].Other?
    requires |body| < room
    ensures var (m, chunks, ok) := Fold(BLANK, body + [MessageStop], room);
            ok && Finishes(chunks) == ["stop"] && Judge(m.finished, Forwarded) == Truncated
  {
    var events := body + [MessageStop];
    FoldMeaning(BLANK, events, room);
    FinishesMeaning(BLANK, events, room);
    ExpectedFinishesBody(body, [MessageStop]);
    StopOnly();
    forall i | 0 <= i < |events| ensures !Finishing(events[i]) {
      assert i < |body| ==> events[i] == body[i];
    }
  }

  lemma StopOnly()
    ensures ExpectedFinishes(false, [MessageStop]) == ["stop"]
  {
    assert [MessageStop][1..] == [];
  }
}
