/** The streamed Anthropic answer as bytes: cutting it into events and translating them, wherever the stream
    breaks off. */
module AnthropicStream {
  import opened Prelude
  import opened Bytes
  import LineReader
  import StreamTranslator

  type Event = StreamTranslator.Event

  // ---- decoding one chunk ----

  /** What the data of an event decode to; Other when they do not decode, or to nothing of interest. */
  type Json = bytes -> Event

  const DATA: bytes := [100, 97, 116, 97, 58, 32]  // data: and a space

  predicate IsSpace(b: byte) { 9 <= b <= 13 || b == 32 }

  function TrimLeft(s: bytes): bytes {
    if s != [] && IsSpace(s[0]) then TrimLeft(s[1..]) else s
  }

  function TrimRight(s: bytes): bytes {
    if s != [] && IsSpace(s[|s| - 1]) then TrimRight(s[..|s| - 1]) else s
  }

  function TrimSpace(s: bytes): bytes {
    TrimRight(TrimLeft(s))
  }

  function TrimCr(s: bytes): bytes {
    if s != [] && s[|s| - 1] == CR then TrimCr(s[..|s| - 1]) else s
  }

  /** The data of one line, without its LF. */
  function FromLine(line: bytes): Option<bytes> {
    var t := TrimCr(line);
    if |DATA| <= |t| && t[..|DATA|] == DATA then Some(TrimSpace(t[|DATA|..])) else None
  }

  /** The data of the first line that has any. */
  function DataOf(block: bytes): Option<bytes>
    decreases |block|
  {
    if LF !in block then FromLine(block)
    else
      var n := LineReader.LineLength(block);
      var d := FromLine(block[..n - 1]);
      if d.Some? then d else DataOf(block[n..])
  }

  method ExtractData(block: bytes) returns (r: Option<bytes>)
    ensures r == DataOf(block)
  {
    var rest := block;
    while LF in rest
      invariant DataOf(block) == DataOf(rest)
      decreases |rest|
    {
      var n := LineReader.LineLength(rest);
      var d := FromLine(rest[..n - 1]);
      if d.Some? {
        return d;
      }
      rest := rest[n..];
    }
    return FromLine(rest);
  }

  function Decode(json: Json, chunk: bytes): Event {
    match DataOf(chunk)
    case None => StreamTranslator.Other
    case Some(data) => if data == DONE_MARK then StreamTranslator.Other else json(data)
  }

  /** Chunks without data, and the end mark, are ignored; all other data are decoded. */
  lemma DecodeMeaning(json: Json, chunk: bytes)
    ensures DataOf(chunk).None? ==> Decode(json, chunk) == StreamTranslator.Other
    ensures DataOf(chunk).Some? ==>
              var data := DataOf(chunk).value;
              Decode(json, chunk) == if data == [91, 68, 79, 78, 69, 93] then StreamTranslator.Other else json(data)
  {
  }

  /** No proper prefix of the event's data decodes, as with a JSON object. */
  ghost predicate Atomic(json: Json, block: bytes) {
    DataOf(block).Some? ==>
      forall k :: 0 <= k < |DataOf(block).value| ==> json(DataOf(block).value[..k]) == StreamTranslator.Other
  }

  // ---- decoding part of a chunk ----

  lemma {:induction false} TrimRightPrefix(s: bytes, k: nat)
    requires k <= |s|
    ensures TrimRight(s[..k]) <= TrimRight(s) && TrimRight(s) <= s
    decreases |s|
  {
    if k == |s| {
      assert s[..k] == s;
    } else {
      assert s[..|s| - 1][..k] == s[..k];
      TrimRightPrefix(s[..|s| - 1], k);
    }
    if s != [] && IsSpace(s[|s| - 1]) {
      TrimRightPrefix(s[..|s| - 1], |s| - 1);
    } else if k < |s| {
      TrimRightShortens(s[..k]);
    }
  }

  lemma {:induction false} TrimRightShortens(s: bytes)
    ensures TrimRight(s) <= s
  {
    if s != [] {
      TrimRightShortens(s[..|s| - 1]);
    }
  }

  lemma {:induction false} TrimPrefix(s: bytes, k: nat)
    requires k <= |s|
    ensures TrimSpace(s[..k]) <= TrimSpace(s)
    decreases |s|
  {
    if s != [] && IsSpace(s[0]) && k > 0 {
      assert s[1..][..k - 1] == s[..k][1..];
      TrimPrefix(s[1..], k - 1);
    } else if k > 0 {
      assert s[..k][0] == s[0];
      TrimRightPrefix(s, k);
    }
  }

  lemma {:induction false} TrimLeftCr(s: bytes)
    requires s != [] && s[|s| - 1] == CR
    ensures TrimSpace(s[..|s| - 1]) == TrimSpace(s)
  {
    if IsSpace(s[0]) {
      if |s| > 1 {
        assert s[..|s| - 1][1..] == s[1..][..|s| - 2];
        TrimLeftCr(s[1..]);
      }
    }
  }

  lemma {:induction false} TrimIgnoresCr(s: bytes)
    ensures TrimSpace(TrimCr(s)) == TrimSpace(s)
  {
    if s != [] && s[|s| - 1] == CR {
      TrimLeftCr(s);
      TrimIgnoresCr(s[..|s| - 1]);
    }
  }

  /** A line has data exactly when it starts with the data mark. */
  lemma {:induction false} FromLineMeaning(line: bytes)
    ensures FromLine(line) ==
            if |DATA| <= |line| && line[..|DATA|] == DATA then Some(TrimSpace(line[|DATA|..])) else None
  {
    if line != [] && line[|line| - 1] == CR {
      var shorter := line[..|line| - 1];
      FromLineMeaning(shorter);
      if |DATA| <= |line| && line[..|DATA|] == DATA {
        assert |DATA| < |line| by {
          assert line[|DATA| - 1] == 32;
        }
        assert shorter[..|DATA|] == DATA;
        assert shorter[|DATA|..] == line[|DATA|..][..|line| - |DATA| - 1];
        TrimLeftCr(line[|DATA|..]);
      } else if |DATA| <= |shorter| {
        assert shorter[..|DATA|] == line[..|DATA|];
      }
    }
  }

  lemma DataMark()
    ensures |DATA| == |"data: "| && forall i :: 0 <= i < |DATA| ==> DATA[i] as int == "data: "[i] as int
  {
  }

  /** Spaces, and the five control characters from tab to carriage return. */
  predicate AllSpace(s: bytes) {
    forall i :: 0 <= i < |s| ==> s[i] == 9 || s[i] == 10 || s[i] == 11 || s[i] == 12 || s[i] == 13 || s[i] == 32
  }

  /** Trimming takes off such characters only, at both ends, and leaves none there. */
  lemma TrimMeaning(s: bytes) returns (left: bytes, right: bytes)
    ensures s == left + TrimSpace(s) + right && AllSpace(left) && AllSpace(right)
    ensures TrimSpace(s) != [] ==> !AllSpace(TrimSpace(s)[..1]) && !AllSpace(TrimSpace(s)[|TrimSpace(s)| - 1..])
  {
    left := LeftSpace(s);
    right := RightSpace(TrimLeft(s));
    TrimRightShortens(TrimLeft(s));
    assert s == left + (TrimSpace(s) + right);
    Assoc(left, TrimSpace(s), right);
  }

  lemma {:induction false} LeftSpace(s: bytes) returns (left: bytes)
    ensures s == left + TrimLeft(s) && AllSpace(left) && (TrimLeft(s) != [] ==> !AllSpace(TrimLeft(s)[..1]))
  {
    left := [];
    if s != [] && IsSpace(s[0]) {
      left := LeftSpace(s[1..]);
      Assoc([s[0]], left, TrimLeft(s[1..]));
      left := [s[0]] + left;
    }
  }

  lemma {:induction false} RightSpace(s: bytes) returns (right: bytes)
    ensures s == TrimRight(s) + right && AllSpace(right)
    ensures TrimRight(s) != [] ==> !AllSpace(TrimRight(s)[|TrimRight(s)| - 1..])
  {
    right := [];
    if s != [] && IsSpace(s[|s| - 1]) {
      var n := |s| - 1;
      right := RightSpace(s[..n]);
      Assoc(TrimRight(s[..n]), right, [s[n]]);
      right := right + [s[n]];
    }
  }

  /** What is found in part of the data found. */
  ghost predicate PartOf(part: Option<bytes>, whole: Option<bytes>) {
    part.Some? ==> whole.Some? && part.value <= whole.value
  }

  lemma LinePart(line: bytes, k: nat)
    requires k <= |line|
    ensures PartOf(FromLine(line[..k]), FromLine(line))
  {
    FromLineMeaning(line);
    FromLineMeaning(line[..k]);
    if |DATA| <= k {
      assert line[..k][..|DATA|] == line[..|DATA|];
      assert line[..k][|DATA|..] == line[|DATA|..][..k - |DATA|];
      TrimPrefix(line[|DATA|..], k - |DATA|);
    }
  }

  lemma {:induction false} DataPart(block: bytes, k: nat)
    requires k <= |block|
    ensures PartOf(DataOf(block[..k]), DataOf(block))
    decreases |block|
  {
    if LF !in block {
      assert LF !in block[..k];
      LinePart(block, k);
    } else {
      PrefixLine(block, k);
      var n := LineReader.LineLength(block);
      if k < n {
        assert block[..n - 1][..k] == block[..k];
        LinePart(block[..n - 1], k);
      } else {
        TakeSlices(block, n - 1, k);
        TakeSlices(block, n, k);
        DataPart(block[n..], k - n);
      }
    }
  }

  /** The bytes of an event broken off anywhere decode to that event or to nothing. */
  lemma AllOrNothing(json: Json, block: bytes, k: nat)
    requires Atomic(json, block) && k <= |block|
    ensures Decode(json, block[..k]) == StreamTranslator.Other || Decode(json, block[..k]) == Decode(json, block)
  {
    DataPart(block, k);
    var part, whole := DataOf(block[..k]), DataOf(block);
    if part.Some? && part != whole {
      Shorter(part.value, whole.value);
    }
  }

  lemma Shorter(a: bytes, b: bytes)
    requires a <= b && a != b
    ensures |a| < |b| && a == b[..|a|]
  {
    assert b[..|b|] == b;
  }

  // ---- what the reader makes of a broken stream ----

  /** The bytes of one event: lines that are not blank, and then a blank one. */
  predicate Block(b: bytes)
    decreases |b|
  {
    && LF in b
    && var n := LineReader.LineLength(b);
       if LineReader.Blank(b[..n]) then n == |b| else Block(b[n..])
  }

  lemma {:induction false} FirstLine(b: bytes, rest: bytes)
    requires LF in b
    ensures LF in b + rest && LineReader.LineLength(b + rest) == LineReader.LineLength(b)
  {
    assert b[0] == (b + rest)[0];
    if b[0] != LF {
      assert (b + rest)[1..] == b[1..] + rest;
      FirstLine(b[1..], rest);
    }
  }

  lemma {:induction false} BlockChunks(b: bytes, buf: bytes, rest: bytes)
    requires Block(b)
    ensures LineReader.Chunks(b + rest, buf, Eof) == [buf + b] + LineReader.Chunks(rest, [], Eof)
    decreases |b|
  {
    var n := LineReader.LineLength(b);
    LineThenRest(b, buf, rest);
    if LineReader.Blank(b[..n]) {
      assert b[..n] == b && b[n..] + rest == rest;
    } else {
      BlockChunks(b[n..], buf + b[..n], rest);
      Rejoin(buf, b, n);
    }
  }

  lemma Rejoin(buf: bytes, b: bytes, n: nat)
    requires n <= |b|
    ensures buf + b[..n] + b[n..] == buf + b
  {
    assert b[..n] + b[n..] == b;
  }

  lemma LineThenRest(b: bytes, buf: bytes, rest: bytes)
    requires LF in b
    ensures var n := LineReader.LineLength(b);
            LineReader.Chunks(b + rest, buf, Eof)
            == if LineReader.Blank(b[..n]) then [buf + b[..n]] + LineReader.Chunks(b[n..] + rest, [], Eof)
               else LineReader.Chunks(b[n..] + rest, buf + b[..n], Eof)
  {
    FirstLine(b, rest);
    var n := LineReader.LineLength(b);
    LineReader.ChunksUnfold(b + rest, buf, Eof);
    assert (b + rest)[..n] == b[..n] && (b + rest)[n..] == b[n..] + rest;
  }

  /** The first line of a prefix that is long enough, or no line end at all. */
  lemma {:induction false} PrefixLine(b: bytes, k: nat)
    requires LF in b && k <= |b|
    ensures LF in b[..k] <==> LineReader.LineLength(b) <= k
    ensures LF in b[..k] ==> LineReader.LineLength(b[..k]) == LineReader.LineLength(b)
  {
    if k > 0 {
      assert b[..k][0] == b[0];
      if b[0] != LF {
        assert b[1..][..k - 1] == b[..k][1..];
        PrefixLine(b[1..], k - 1);
      }
    }
  }

  lemma {:induction false} PartChunks(b: bytes, k: nat, buf: bytes)
    requires Block(b) && k < |b|
    ensures LineReader.Chunks(b[..k], buf, Eof) == if buf + b[..k] != [] then [buf + b[..k]] else []
    decreases |b|
  {
    PrefixLine(b, k);
    var n := LineReader.LineLength(b);
    if n <= k {
      assert !LineReader.Blank(b[..n]);
      PartLine(b, k, buf);
      PartChunks(b[n..], k - n, buf + b[..n]);
    } else {
      LineReader.ChunksUnfold(b[..k], buf, Eof);
    }
  }

  /** A first line that is whole and not blank is buffered. */
  lemma PartLine(b: bytes, k: nat, buf: bytes)
    requires LF in b && LineReader.LineLength(b) <= k <= |b|
    requires !LineReader.Blank(b[..LineReader.LineLength(b)])
    ensures var n := LineReader.LineLength(b);
            && LineReader.Chunks(b[..k], buf, Eof) == LineReader.Chunks(b[n..][..k - n], buf + b[..n], Eof)
            && buf + b[..n] + b[n..][..k - n] == buf + b[..k] && buf + b[..k] != []
  {
    PrefixLine(b, k);
    LineReader.ChunksUnfold(b[..k], buf, Eof);
    var n := LineReader.LineLength(b);
    TakeSlices(b, n, k);
    Rejoin(buf, b[..k], n);
  }

  /** When reading fails, a partial event goes on only if its last line is complete, or has nothing but line
      breaks in it. */
  predicate HandedOn(part: bytes, end: End) {
    part != [] && (end.Eof? || LineReader.Blank(LineReader.Unfinished(part)))
  }

  lemma {:induction false} UnfinishedAfter(b: bytes, rest: bytes)
    requires Block(b)
    ensures LineReader.Unfinished(b + rest) == LineReader.Unfinished(rest)
    decreases |b|
  {
    FirstLine(b, rest);
    var n := LineReader.LineLength(b);
    assert (b + rest)[n..] == b[n..] + rest;
    if LineReader.Blank(b[..n]) {
      assert b[n..] + rest == rest;
    } else {
      UnfinishedAfter(b[n..], rest);
    }
  }

  lemma {:induction false} UnfinishedAtEnd(blocks: seq<bytes>, part: bytes)
    requires Blocks(blocks)
    ensures LineReader.Unfinished(Flatten(blocks) + part) == LineReader.Unfinished(part)
  {
    if blocks == [] {
      assert Flatten(blocks) + part == part;
    } else {
      Assoc(blocks[0], Flatten(blocks[1..]), part);
      UnfinishedAfter(blocks[0], Flatten(blocks[1..]) + part);
      UnfinishedAtEnd(blocks[1..], part);
    }
  }

  ghost predicate Blocks(blocks: seq<bytes>) {
    forall i :: 0 <= i < |blocks| ==> Block(blocks[i])
  }

  /** A broken stream is handed on as its whole events and one partial one. */
  lemma {:induction false} CutChunks(blocks: seq<bytes>, j: nat, k: nat)
    requires Blocks(blocks) && j < |blocks| && k < |blocks[j]|
    ensures LineReader.Chunks(Flatten(blocks[..j]) + blocks[j][..k], [], Eof)
            == blocks[..j] + if k > 0 then [blocks[j][..k]] else []
  {
    if j == 0 {
      PartChunks(blocks[0], k, []);
      assert Flatten(blocks[..0]) + blocks[0][..k] == blocks[0][..k] && [] + blocks[0][..k] == blocks[0][..k];
    } else {
      var rest := Flatten(blocks[1..][..j - 1]) + blocks[j][..k];
      assert blocks[..j][1..] == blocks[1..][..j - 1];
      Assoc(blocks[0], Flatten(blocks[1..][..j - 1]), blocks[j][..k]);
      BlockChunks(blocks[0], [], rest);
      CutChunks(blocks[1..], j - 1, k);
      assert [] + blocks[0] == blocks[0] && blocks[1..][j - 1] == blocks[j];
      Assoc([blocks[0]], blocks[1..][..j - 1], if k > 0 then [blocks[j][..k]] else []);
      assert [blocks[0]] + blocks[1..][..j - 1] == blocks[..j];
    }
  }

  /** However the stream ends: its whole events, and the partial one if it is handed on. */
  lemma CutChunksAnyEnd(blocks: seq<bytes>, j: nat, k: nat, end: End)
    requires Blocks(blocks) && j < |blocks| && k < |blocks[j]|
    ensures LineReader.Chunks(Flatten(blocks[..j]) + blocks[j][..k], [], end)
            == blocks[..j] + if HandedOn(blocks[j][..k], end) then [blocks[j][..k]] else []
  {
    var cut := Flatten(blocks[..j]) + blocks[j][..k];
    CutChunks(blocks, j, k);
    if end.ReadFailed? {
      LineReader.FailureWithholds(cut, []);
      UnfinishedAtEnd(blocks[..j], blocks[j][..k]);
      assert k == 0 ==> LineReader.Unfinished(blocks[j][..k]) == [];
      assert (blocks[..j] + [blocks[j][..k]])[..j] == blocks[..j];
      assert blocks[..j] + [] == blocks[..j];
    }
  }

  /** Every position in the stream lies in one block. */
  lemma {:induction false} InBlock(blocks: seq<bytes>, c: nat) returns (j: nat, k: nat)
    requires c < |Flatten(blocks)|
    ensures j < |blocks| && k < |blocks[j]| && c == |Flatten(blocks[..j])| + k
    ensures Flatten(blocks)[..c] == Flatten(blocks[..j]) + blocks[j][..k]
  {
    if c < |blocks[0]| {
      j, k := 0, c;
      assert Flatten(blocks)[..c] == [] + blocks[0][..c];
    } else {
      j, k := InBlock(blocks[1..], c - |blocks[0]|);
      assert Flatten(blocks)[..c] == blocks[0] + Flatten(blocks[1..])[..c - |blocks[0]|];
      Assoc(blocks[0], Flatten(blocks[1..][..j]), blocks[1..][j][..k]);
      j := j + 1;
      assert blocks[..j][1..] == blocks[1..][..j - 1];
    }
  }

  lemma {:induction false} EarlierBlocks(blocks: seq<bytes>, i: nat, j: nat)
    requires i < j <= |blocks|
    ensures |Flatten(blocks[..i])| + |blocks[i]| <= |Flatten(blocks[..j])|
    decreases j
  {
    Snoc(blocks, j - 1);
    FlattenSnoc(blocks[..j - 1], blocks[j - 1]);
    if i < j - 1 {
      EarlierBlocks(blocks, i, j - 1);
    }
  }

  // ---- what the translator makes of it ----

  function Decoded(json: Json, chunks: seq<bytes>): (events: seq<Event>)
    ensures |events| == |chunks|
  {
    if chunks == [] then [] else [Decode(json, chunks[0])] + Decoded(json, chunks[1..])
  }

  lemma {:induction false} DecodedAt(json: Json, chunks: seq<bytes>)
    ensures forall i :: 0 <= i < |chunks| ==> Decoded(json, chunks)[i] == Decode(json, chunks[i])
  {
    if chunks != [] {
      DecodedAt(json, chunks[1..]);
    }
  }

  lemma {:induction false} DecodedAppend(json: Json, a: seq<bytes>, b: seq<bytes>)
    ensures Decoded(json, a + b) == Decoded(json, a) + Decoded(json, b)
  {
    if a == [] {
      assert a + b == b;
    } else {
      DecodedAppend(json, a[1..], b);
      Cons(a[0], a, b);
      Assoc([Decode(json, a[0])], Decoded(json, a[1..]), Decoded(json, b));
    }
  }

  lemma DecodedCut(json: Json, blocks: seq<bytes>, j: nat, part: bytes)
    requires j <= |blocks|
    ensures Decoded(json, blocks[..j]) == Decoded(json, blocks)[..j]
    ensures Decoded(json, blocks[..j] + [part]) == Decoded(json, blocks)[..j] + [Decode(json, part)]
  {
    SplitAt(blocks, j);
    DecodedAppend(json, blocks[..j], blocks[j..]);
    TakeAppend(Decoded(json, blocks[..j]), Decoded(json, blocks[j..]));
    DecodedAppend(json, blocks[..j], [part]);
    assert Decoded(json, [part]) == [Decode(json, part)];
  }

  /** One ignored event at the end changes neither the text nor whether a stop reason came. */
  lemma OtherAddsNothing(events: seq<Event>, room: nat)
    requires |events| < room
    ensures var f := StreamTranslator.Fold(StreamTranslator.BLANK, events, room);
            var g := StreamTranslator.Fold(StreamTranslator.BLANK, events + [StreamTranslator.Other], room);
            && g.2 && StreamTranslator.ChunksText(g.1) == StreamTranslator.ChunksText(f.1)
            && g.0.finished == f.0.finished
  {
    var longer := events + [StreamTranslator.Other];
    StreamTranslator.FoldMeaning(StreamTranslator.BLANK, events, room);
    StreamTranslator.FoldMeaning(StreamTranslator.BLANK, longer, room);
    StreamTranslator.DeltaTextAppend(events, [StreamTranslator.Other]);
    assert [StreamTranslator.Other][1..] == [];
    assert forall i :: 0 <= i < |events| ==> longer[i] == events[i];
    assert !StreamTranslator.Finishing(longer[|events|]);
  }

  /** What reaches the client of a translator with room enough. */
  function Translated(json: Json, body: bytes, end: End, room: nat)
    : (StreamTranslator.Memory, seq<StreamTranslator.Chunk>, bool)
  {
    StreamTranslator.Fold(StreamTranslator.BLANK, Decoded(json, LineReader.Chunks(body, [], end)), room)
  }

  /** A response as bytes: one block per event. */
  ghost predicate Streams(json: Json, blocks: seq<bytes>, resp: StreamTranslator.Response, body: seq<Event>,
                          usage: Option<StreamTranslator.Usage>)
  {
    && Blocks(blocks) && (forall i :: 0 <= i < |blocks| ==> Atomic(json, blocks[i]))
    && StreamTranslator.Renders(Decoded(json, blocks), resp, body, usage) && resp.stopReason != ""
  }

  /** The events that come out of a broken stream. */
  lemma CutEvents(json: Json, blocks: seq<bytes>, j: nat, k: nat, end: End)
    requires Blocks(blocks) && j < |blocks| && k < |blocks[j]| && Atomic(json, blocks[j])
    ensures var cut := Decoded(json, LineReader.Chunks(Flatten(blocks[..j]) + blocks[j][..k], [], end));
            cut == if !HandedOn(blocks[j][..k], end) then Decoded(json, blocks)[..j]
                   else if Decode(json, blocks[j][..k]) == Decode(json, blocks[j]) then Decoded(json, blocks)[..j + 1]
                   else Decoded(json, blocks)[..j] + [StreamTranslator.Other]
  {
    CutChunksAnyEnd(blocks, j, k, end);
    AllOrNothing(json, blocks[j], k);
    DecodedAt(json, blocks);
    DecodedCut(json, blocks, j, blocks[j][..k]);
    Snoc(Decoded(json, blocks), j);
    assert blocks[..j] + [] == blocks[..j];
  }

  /** What the translator makes of some bytes: a prefix of the response's text, and a verdict that depends on
      whether the stop reason has come. */
  ghost predicate Makes(json: Json, bytes: bytes, end: End, room: nat, resp: StreamTranslator.Response, stopped: bool) {
    var (m, chunks, ok) := Translated(json, bytes, end, room);
    && ok && StreamTranslator.ChunksText(chunks) <= StreamTranslator.Batch(resp).content
    && StreamTranslator.Judge(m.finished, Ended(end)) == (
         if !stopped then StreamTranslator.Truncated
         else if end.Eof? then StreamTranslator.Complete
         else StreamTranslator.Failed(ReadError))
  }

  /** Whether the n-th event has come of a stream that breaks off k bytes into the j-th block. */
  predicate CameAt(json: Json, blocks: seq<bytes>, n: nat, j: nat, k: nat, end: End)
    requires j < |blocks| && k < |blocks[j]|
  {
    j > n || (j == n && HandedOn(blocks[j][..k], end) && Decode(json, blocks[j][..k]) == Decode(json, blocks[j]))
  }

  /** The same, by the position of the break. */
  predicate Came(json: Json, blocks: seq<bytes>, n: nat, c: nat, end: End)
    requires n < |blocks|
  {
    var start := |Flatten(blocks[..n])|;
    c > start && !StopLost(json, blocks[n], c - start, end)
  }

  lemma CameEither(json: Json, blocks: seq<bytes>, j: nat, k: nat, n: nat, end: End)
    requires j < |blocks| && k < |blocks[j]| && n < |blocks| && Atomic(json, blocks[n])
    requires Decode(json, blocks[n]) != StreamTranslator.Other
    ensures Came(json, blocks, n, |Flatten(blocks[..j])| + k, end) == CameAt(json, blocks, n, j, k, end)
  {
    Compared(blocks, j, k, n);
    if j == n {
      AllOrNothing(json, blocks[n], k);
    }
  }

  /** The translator on the events before the j-th, with that one, or with an ignored one in its place. */
  lemma EventsMake(resp: StreamTranslator.Response, events: seq<Event>, body: seq<Event>,
                   usage: Option<StreamTranslator.Usage>, j: nat, whole: bool, part: bool, room: nat)
    requires resp.stopReason != "" && StreamTranslator.Renders(events, resp, body, usage) && j < |events| <= room
    ensures var came := if whole then events[..j + 1] else events[..j] + if part then [StreamTranslator.Other] else [];
            var f := StreamTranslator.Fold(StreamTranslator.BLANK, came, room);
            && f.2 && StreamTranslator.ChunksText(f.1) <= StreamTranslator.Batch(resp).content
            && (f.0.finished <==> j > 1 + |body| || (j == 1 + |body| && whole))
  {
    StreamTranslator.CutStream(resp, events, body, usage, j, room);
    StreamTranslator.CutStream(resp, events, body, usage, j + 1, room);
    OtherAddsNothing(events[..j], room);
    assert events[..j] + [] == events[..j];
  }

  lemma CutAt(json: Json, blocks: seq<bytes>, resp: StreamTranslator.Response, body: seq<Event>,
              usage: Option<StreamTranslator.Usage>, j: nat, k: nat, end: End, room: nat)
    requires Streams(json, blocks, resp, body, usage) && |blocks| <= room && j < |blocks| && k < |blocks[j]|
    ensures Makes(json, Flatten(blocks[..j]) + blocks[j][..k], end, room, resp,
                  CameAt(json, blocks, 1 + |body|, j, k, end))
  {
    CutEvents(json, blocks, j, k, end);
    var handed := HandedOn(blocks[j][..k], end);
    EventsMake(resp, Decoded(json, blocks), body, usage, j,
               handed && Decode(json, blocks[j][..k]) == Decode(json, blocks[j]), handed, room);
    assert Decoded(json, blocks)[..j] + [] == Decoded(json, blocks)[..j];
  }

  /** The stop reason's block does not decode to nothing. */
  lemma StopDecodes(json: Json, blocks: seq<bytes>, resp: StreamTranslator.Response, body: seq<Event>,
                    usage: Option<StreamTranslator.Usage>)
    requires Streams(json, blocks, resp, body, usage)
    ensures 1 + |body| < |blocks|
    ensures Decode(json, blocks[1 + |body|]) == StreamTranslator.MessageDelta(resp.stopReason, usage)
  {
    DecodedAt(json, blocks);
  }

  /** For a break at any byte, whether the body then ends or reading it fails: the text is a prefix of the
      batch conversion's, and the verdict is truncation exactly when the break comes before the stop reason's
      event, or inside it with what has come of it not handed on or not decoding; a failed read after the
      stop reason is reported as such. */
  lemma CutAnywhere(json: Json, blocks: seq<bytes>, resp: StreamTranslator.Response, body: seq<Event>,
                    usage: Option<StreamTranslator.Usage>, c: nat, end: End, room: nat)
    requires Streams(json, blocks, resp, body, usage) && |blocks| <= room && c < |Flatten(blocks)|
    ensures 1 + |body| < |blocks|
    ensures Makes(json, Flatten(blocks)[..c], end, room, resp, Came(json, blocks, 1 + |body|, c, end))
  {
    StopDecodes(json, blocks, resp, body, usage);
    var j, k := InBlock(blocks, c);
    CutInBlock(json, blocks, resp, body, usage, j, k, end, room);
  }

  lemma CutInBlock(json: Json, blocks: seq<bytes>, resp: StreamTranslator.Response, body: seq<Event>,
                   usage: Option<StreamTranslator.Usage>, j: nat, k: nat, end: End, room: nat)
    requires Streams(json, blocks, resp, body, usage) && |blocks| <= room && j < |blocks| && k < |blocks[j]|
    ensures 1 + |body| < |blocks|
    ensures Makes(json, Flatten(blocks[..j]) + blocks[j][..k], end, room, resp,
                  Came(json, blocks, 1 + |body|, |Flatten(blocks[..j])| + k, end))
  {
    StopDecodes(json, blocks, resp, body, usage);
    CameEither(json, blocks, j, k, 1 + |body|, end);
    CutAt(json, blocks, resp, body, usage, j, k, end, room);
  }

  /** A position before, in or after the n-th block. */
  lemma Compared(blocks: seq<bytes>, j: nat, k: nat, n: nat)
    requires j < |blocks| && k < |blocks[j]| && n < |blocks|
    ensures var c, start := |Flatten(blocks[..j])| + k, |Flatten(blocks[..n])|;
            && (j < n ==> c < start) && (j == n ==> c == start + k) && (j > n ==> c >= start + |blocks[n]|)
  {
    if j < n {
      EarlierBlocks(blocks, j, n);
    } else if n < j {
      EarlierBlocks(blocks, n, j);
    }
  }

  /** Of the stop reason's event only k bytes have come, and they make no event. */
  predicate StopLost(json: Json, stop: bytes, k: nat, end: End) {
    k < |stop| && (!HandedOn(stop[..k], end) || Decode(json, stop[..k]) == StreamTranslator.Other)
  }
}
