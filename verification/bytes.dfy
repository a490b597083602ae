/** Bytes, and the client that a stream is forwarded to. */
module Bytes {
  import opened Prelude

  newtype byte = x: int | 0 <= x < 256
  type bytes = seq<byte>

  const LF: byte := 10
  const CR: byte := 13

  predicate NotBreak(b: byte) { b != LF && b != CR }

  /** How reading an upstream body ends. */
  datatype End = Eof | ReadFailed

  datatype Outcome = Forwarded | ReadError | WriteError | BadStatus(code: int)

  function Ended(end: End): Outcome {
    if end.Eof? then Forwarded else ReadError
  }

  // ---- searching ----

  const DONE_MARK: bytes := [91, 68, 79, 78, 69, 93]  // [DONE]

  /** The constants are the characters they stand for. */
  lemma Characters()
    ensures Ended(Eof) == Forwarded && Ended(ReadFailed) == ReadError
    ensures LF as int == '\n' as int && CR as int == '\r' as int
    ensures |DONE_MARK| == |"[DONE]"| && forall i :: 0 <= i < |DONE_MARK| ==> DONE_MARK[i] as int == "[DONE]"[i] as int
  {
  }

  predicate OccursAt(b: bytes, sub: bytes, i: int) {
    0 <= i <= |b| - |sub| && b[i..i + |sub|] == sub
  }

  ghost predicate Contains(b: bytes, sub: bytes) {
    exists i :: OccursAt(b, sub, i)
  }

  /** Containing is having it between two other parts. */
  lemma ContainsMeaning(b: bytes, sub: bytes)
    ensures Contains(b, sub) <==> exists left: bytes, right: bytes :: b == left + sub + right
  {
    if i :| OccursAt(b, sub, i) {
      assert b == b[..i] + sub + b[i + |sub|..];
    }
    if left: bytes, right: bytes :| b == left + sub + right {
      assert b[|left|..|left| + |sub|] == sub;
      assert OccursAt(b, sub, |left|);
    }
  }

  method BytesIndex(b: bytes, sub: bytes) returns (idx: int)
    ensures idx >= 0 ==> OccursAt(b, sub, idx) && forall j :: 0 <= j < idx ==> !OccursAt(b, sub, j)
    ensures idx < 0 ==> idx == -1 && !Contains(b, sub)
  {
    var i := 0;
    while i + |sub| <= |b|
      invariant 0 <= i && i + |sub| <= |b| + 1 + |sub|
      invariant forall j :: 0 <= j < i ==> !OccursAt(b, sub, j)
      decreases |b| - i
    {
      if b[i..i + |sub|] == sub {
        return i;
      }
      i := i + 1;
    }
    return -1;
  }

  /** Some chunk contains the end mark. */
  ghost predicate Marked(chunks: seq<bytes>) {
    exists i :: 0 <= i < |chunks| && Contains(chunks[i], DONE_MARK)
  }

  lemma MarkedSnoc(chunks: seq<bytes>, c: bytes)
    ensures Marked(chunks + [c]) <==> Marked(chunks) || Contains(c, DONE_MARK)
  {
    var all := chunks + [c];
    if Marked(chunks) {
      var i :| 0 <= i < |chunks| && Contains(chunks[i], DONE_MARK);
      assert Contains(all[i], DONE_MARK);
    }
    if Contains(c, DONE_MARK) {
      assert Contains(all[|chunks|], DONE_MARK);
    }
    if Marked(all) {
      var i :| 0 <= i < |all| && Contains(all[i], DONE_MARK);
      assert all[i] == if i < |chunks| then chunks[i] else c;
    }
  }

  // ---- the client ----

  /** The callback that writes to the client: it works room more times and fails from then on. got is
      what it wrote; done says that some chunk it was given contained the end mark. */
  class Client {
    var got: seq<bytes>
    var room: nat
    var done: bool

    constructor (room: nat)
      ensures got == [] && this.room == room && !done
    {
      got := [];
      this.room := room;
      done := false;
    }

    method Write(chunk: bytes) returns (ok: bool)
      modifies this
      ensures ok == (old(room) > 0) && done == old(done)
      ensures got == if ok then old(got) + [chunk] else old(got)
      ensures room == if ok then old(room) - 1 else 0
      ensures Offered([chunk], old(got), old(room), got, room)
    {
      if room == 0 {
        return false;
      }
      got := got + [chunk];
      room := room - 1;
      return true;
    }

    /** The chunk callback of the OpenAI-compatible stream: look for the end mark, then write. */
    method OnChunk(chunk: bytes) returns (ok: bool)
      modifies this
      ensures ok == (old(room) > 0)
      ensures done <==> old(done) || Contains(chunk, DONE_MARK)
      ensures Offered([chunk], old(got), old(room), got, room)
    {
      var idx := BytesIndex(chunk, DONE_MARK);
      if idx >= 0 {
        done := true;
      }
      ok := Write(chunk);
    }
  }

  /** The client was offered the chunks of wanted in order until one was refused. */
  ghost predicate Offered(wanted: seq<bytes>, before: seq<bytes>, room: nat, after: seq<bytes>, left: nat) {
    if |wanted| <= room then after == before + wanted && left == room - |wanted|
    else after == before + wanted[..room] && left == 0
  }

  /** Offering more after everything so far was taken. */
  lemma OfferMore(wanted: seq<bytes>, more: seq<bytes>, before: seq<bytes>, room: nat,
                  mid: seq<bytes>, midLeft: nat, after: seq<bytes>, left: nat)
    requires |wanted| <= room && Offered(wanted, before, room, mid, midLeft)
    requires Offered(more, mid, midLeft, after, left)
    ensures Offered(wanted + more, before, room, after, left)
  {
    if |more| <= midLeft {
      assert before + wanted + more == before + (wanted + more);
    } else {
      assert (wanted + more)[..room] == wanted + more[..midLeft];
      assert before + wanted + more[..midLeft] == before + (wanted + more[..midLeft]);
    }
  }

  /** Once a chunk was refused, nothing that comes later matters. */
  lemma OfferRefused(wanted: seq<bytes>, more: seq<bytes>, before: seq<bytes>, room: nat, after: seq<bytes>, left: nat)
    requires |wanted| > room && Offered(wanted, before, room, after, left)
    ensures Offered(wanted + more, before, room, after, left)
  {
    assert (wanted + more)[..room] == wanted[..room];
  }
}
