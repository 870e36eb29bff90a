/** Length-prefixed framing of the chat protocol: the sender, the incremental parser, and the exact streams on
    which the parser does not care how TCP cuts the bytes. */
module Framing {
  import opened Bytes
  import opened Options

  /** Largest payload the parser accepts. */
  const MAX_MESSAGE := 1024 * 1024

  // ---------------------------------------------------------------- the sender

  function Frame(payload: seq<Byte>): seq<Byte>
    requires |payload| < TWO_32
  {
    U32(|payload|) + payload
  }

  /** `frameMessage` on an encoded payload; None is the RangeError of `writeUInt32BE`. */
  method FrameMessage(payload: seq<Byte>) returns (frame: Option<array<Byte>>)
    ensures frame.Some? <==> |payload| < TWO_32
    ensures frame.Some? ==> fresh(frame.value) && frame.value[..] == Frame(payload)
  {
    if |payload| >= TWO_32 { return None; }
    var buf := new Byte[4 + |payload|];
    var header := U32(|payload|);
    for i := 0 to 4
      invariant forall j :: 0 <= j < i ==> buf[j] == header[j]
    {
      buf[i] := header[i];
    }
    for i := 0 to |payload|
      invariant buf[..4] == header
      invariant forall j :: 0 <= j < i ==> buf[4 + j] == payload[j]
    {
      buf[4 + i] := payload[i];
    }
    assert buf[..] == header + payload;
    return Some(buf);
  }

  // ---------------------------------------------------------------- the parser

  function Decoded<M>(decode: seq<Byte> -> Option<M>, payload: seq<Byte>): seq<M> {
    match decode(payload)
    case Some(m) => [m]
    case None => []
  }

  /** What the parser takes out of its buffer: the decoded messages and the bytes it keeps. */
  function Drain<M>(decode: seq<Byte> -> Option<M>, buf: seq<Byte>): (seq<M>, seq<Byte>)
    decreases |buf|
  {
    if |buf| < 4 then ([], buf)
    else
      var len := ReadU32(buf);
      if len > MAX_MESSAGE then ([], [])
      else if |buf| < 4 + len then ([], buf)
      else
        var (ms, kept) := Drain(decode, buf[4 + len..]);
        (Decoded(decode, buf[4..4 + len]) + ms, kept)
  }

  class MessageParser<M> {
    const decode: seq<Byte> -> Option<M>
    var buffer: seq<Byte>

    constructor (decode: seq<Byte> -> Option<M>)
      ensures this.decode == decode && buffer == []
    {
      this.decode := decode;
      buffer := [];
    }

    method Parse(data: seq<Byte>) returns (messages: seq<M>)
      modifies this
      ensures (messages, buffer) == Drain(decode, old(buffer) + data)
    {
      buffer := buffer + data;
      messages := [];
      ghost var whole := Drain(decode, buffer);
      assert [] + whole.0 == whole.0;
      while |buffer| >= 4
        invariant whole == (messages + Drain(decode, buffer).0, Drain(decode, buffer).1)
        decreases |buffer|
      {
        var msgLen := ReadU32(buffer);
        if msgLen > MAX_MESSAGE {
          buffer := [];
          break;
        }
        if |buffer| < 4 + msgLen { break; }
        var payload := buffer[4..4 + msgLen];
        buffer := buffer[4 + msgLen..];
        ghost var rest := Drain(decode, buffer).0;
        assert messages + (Decoded(decode, payload) + rest) == messages + Decoded(decode, payload) + rest;
        match decode(payload)
        case Some(msg) => messages := messages + [msg];
        case None => assert messages + [] == messages;
      }
      assert messages + [] == messages;
    }
  }

  // ---------------------------------------------------------------- what is kept

  /** Not yet a whole frame, and the start of one the parser would accept. */
  predicate Incomplete(buf: seq<Byte>) {
    |buf| < 4 || (ReadU32(buf) <= MAX_MESSAGE && |buf| < 4 + ReadU32(buf))
  }

  /** After any call the kept bytes are a strict prefix of one frame, so fewer than 4 + 2^20. */
  lemma {:induction false} KeepsIncomplete<M>(decode: seq<Byte> -> Option<M>, buf: seq<Byte>)
    ensures var kept := Drain(decode, buf).1;
            Incomplete(kept) && |kept| < 4 + MAX_MESSAGE
    decreases |buf|
  {
    if !Incomplete(buf) && ReadU32(buf) <= MAX_MESSAGE {
      KeepsIncomplete(decode, buf[4 + ReadU32(buf)..]);
    }
  }

  // ---------------------------------------------------------------- chunks

  function Concat(chunks: seq<seq<Byte>>): seq<Byte> {
    if chunks == [] then [] else chunks[0] + Concat(chunks[1..])
  }

  /** The messages of consecutive `parse` calls on `chunks`, and the buffer after the last. */
  function FeedAll<M>(decode: seq<Byte> -> Option<M>, buf: seq<Byte>, chunks: seq<seq<Byte>>): (seq<M>, seq<Byte>)
    decreases |chunks|
  {
    if chunks == [] then ([], buf)
    else
      var (ms, kept) := Drain(decode, buf + chunks[0]);
      var (more, last) := FeedAll(decode, kept, chunks[1..]);
      (ms + more, last)
  }

  /** Some frame boundary of the stream is followed by an oversized length field that is not the very end. */
  predicate OversizedInside(buf: seq<Byte>)
    decreases |buf|
  {
    |buf| >= 4 &&
    var len := ReadU32(buf);
    if len > MAX_MESSAGE then |buf| > 4
    else |buf| >= 4 + len && OversizedInside(buf[4 + len..])
  }

  /** `buf` begins with a whole acceptable frame of payload `p`, and `rest` follows it. */
  ghost predicate Begins(buf: seq<Byte>, p: seq<Byte>, rest: seq<Byte>) {
    && |buf| >= 4 && ReadU32(buf) <= MAX_MESSAGE && |buf| >= 4 + ReadU32(buf)
    && p == buf[4..4 + ReadU32(buf)] && rest == buf[4 + ReadU32(buf)..]
  }

  lemma {:induction false} DrainFrame<M>(decode: seq<Byte> -> Option<M>, buf: seq<Byte>, p: seq<Byte>, rest: seq<Byte>)
    requires Begins(buf, p, rest)
    ensures Drain(decode, buf) == (Decoded(decode, p) + Drain(decode, rest).0, Drain(decode, rest).1)
  {}

  lemma {:induction false} BeginsLonger(a: seq<Byte>, p: seq<Byte>, rest: seq<Byte>, b: seq<Byte>)
    requires Begins(a, p, rest)
    ensures Begins(a + b, p, rest + b)
  {
    ReadU32Prefix(a, b);
  }

  /** Draining `a` and then what is kept of it with `b` behind is draining both at once. */
  ghost predicate InTwo<M>(decode: seq<Byte> -> Option<M>, a: seq<Byte>, b: seq<Byte>) {
    var (ms, kept) := Drain(decode, a);
    var (more, last) := Drain(decode, kept + b);
    Drain(decode, a + b) == (ms + more, last) && !OversizedInside(kept + b)
  }

  lemma {:induction false} FrameThenInTwo<M>(decode: seq<Byte> -> Option<M>, a: seq<Byte>, p: seq<Byte>,
                                             rest: seq<Byte>, b: seq<Byte>)
    requires Begins(a, p, rest) && InTwo(decode, rest, b)
    ensures InTwo(decode, a, b)
  {
    BeginsLonger(a, p, rest, b);
    DrainFrame(decode, a, p, rest);
    DrainFrame(decode, a + b, p, rest + b);
    FrameInFront(Decoded(decode, p), Drain(decode, rest), Drain(decode, a),
                 Drain(decode, rest + b), Drain(decode, a + b), Drain(decode, Drain(decode, rest).1 + b));
  }

  lemma {:induction false} FrameInFront<M>(one: seq<M>, rest: (seq<M>, seq<Byte>), a: (seq<M>, seq<Byte>),
                                           restB: (seq<M>, seq<Byte>), ab: (seq<M>, seq<Byte>),
                                           keptB: (seq<M>, seq<Byte>))
    requires a == (one + rest.0, rest.1) && ab == (one + restB.0, restB.1)
    requires restB == (rest.0 + keptB.0, keptB.1)
    ensures ab == (a.0 + keptB.0, keptB.1)
  {
    assert one + (rest.0 + keptB.0) == one + rest.0 + keptB.0;
  }

  lemma {:induction false} DrainInTwo<M>(decode: seq<Byte> -> Option<M>, a: seq<Byte>, b: seq<Byte>)
    requires !OversizedInside(a + b)
    ensures InTwo(decode, a, b)
    decreases |a|
  {
    if |a| >= 4 { ReadU32Prefix(a, b); }
    if |a| < 4 || (ReadU32(a) <= MAX_MESSAGE && |a| < 4 + ReadU32(a)) {
      assert Drain(decode, a) == ([], a);
      assert [] + Drain(decode, a + b).0 == Drain(decode, a + b).0;
    } else if ReadU32(a) > MAX_MESSAGE {
      assert b == [] && a + b == a && [] + b == [];
    } else {
      var n := 4 + ReadU32(a);
      BeginsLonger(a, a[4..n], a[n..], b);
      DrainInTwo(decode, a[n..], b);
      FrameThenInTwo(decode, a, a[4..n], a[n..], b);
    }
  }

  lemma {:induction false} ChunksDoNotMatter<M>(decode: seq<Byte> -> Option<M>, buf: seq<Byte>, chunks: seq<seq<Byte>>)
    requires !OversizedInside(buf + Concat(chunks)) && Incomplete(buf)
    ensures FeedAll(decode, buf, chunks) == Drain(decode, buf + Concat(chunks))
    decreases |chunks|
  {
    if chunks == [] {
      assert buf + Concat(chunks) == buf;
    } else {
      var head, tail := buf + chunks[0], Concat(chunks[1..]);
      assert buf + Concat(chunks) == head + tail;
      DrainInTwo(decode, head, tail);
      KeepsIncomplete(decode, head);
      ChunksDoNotMatter(decode, Drain(decode, head).1, chunks[1..]);
    }
  }

  lemma {:induction false} OversizedDrops<M>(decode: seq<Byte> -> Option<M>, s: seq<Byte>)
    requires OversizedInside(s)
    ensures Drain(decode, s).1 == [] && Drain(decode, s[..|s|-1]).1 == []
    decreases |s|
  {
    var len := ReadU32(s);
    var t := s[..|s|-1];
    assert t[..4] == s[..4] && s == t + [s[|s|-1]] by {
      if len <= MAX_MESSAGE { assert |s[4 + len..]| >= 4; }
    }
    ReadU32Prefix(t, [s[|s|-1]]);
    if len <= MAX_MESSAGE {
      var rest := s[4 + len..];
      OversizedDrops(decode, rest);
      assert |rest| > 4 && t[4 + len..] == rest[..|rest|-1];
    }
  }

  /** Whether every way of cutting the stream gives the messages and the final buffer of the uncut stream. */
  ghost predicate ChunkInsensitive<M(!new)>(decode: seq<Byte> -> Option<M>, s: seq<Byte>) {
    forall chunks :: Concat(chunks) == s ==> FeedAll(decode, [], chunks) == Drain(decode, s)
  }

  /** A stream is chunk-insensitive exactly when no oversized length field occurs before its end: the reset
      on one drops whatever happens to be buffered. */
  lemma {:induction false} ChunkInsensitiveIff<M(!new)>(decode: seq<Byte> -> Option<M>, s: seq<Byte>)
    ensures ChunkInsensitive(decode, s) <==> !OversizedInside(s)
  {
    if OversizedInside(s) {
      LastByteAlone(decode, s);
    } else {
      forall chunks | Concat(chunks) == s
        ensures FeedAll(decode, [], chunks) == Drain(decode, s)
      {
        assert [] + s == s;
        ChunksDoNotMatter(decode, [], chunks);
      }
    }
  }

  /** Such a stream leaves nothing behind whole, and its last byte if that comes by itself. */
  lemma {:induction false} LastByteAlone<M(!new)>(decode: seq<Byte> -> Option<M>, s: seq<Byte>)
    requires OversizedInside(s)
    ensures !ChunkInsensitive(decode, s)
  {
    var t, last: seq<Byte> := s[..|s|-1], [s[|s|-1]];
    OversizedDrops(decode, s);
    var chunks: seq<seq<Byte>> := [t, last];
    assert chunks[1..] == [last] && [last][1..] == [];
    assert Concat([last]) == last by { assert last + [] == last; }
    assert Concat(chunks) == s;
    assert [] + t == t && [] + last == last;
    assert FeedAll(decode, [], [last]).1 == Drain(decode, last).1 == last;
    assert FeedAll(decode, [], chunks).1 == last;
  }

  // ---------------------------------------------------------------- messages that were framed

  function Frames(payloads: seq<seq<Byte>>): seq<Byte>
    requires forall i :: 0 <= i < |payloads| ==> |payloads[i]| <= MAX_MESSAGE
  {
    if payloads == [] then [] else Frame(payloads[0]) + Frames(payloads[1..])
  }

  function DecodedAll<M>(decode: seq<Byte> -> Option<M>, payloads: seq<seq<Byte>>): seq<M> {
    if payloads == [] then [] else Decoded(decode, payloads[0]) + DecodedAll(decode, payloads[1..])
  }

  lemma {:induction false} DrainFrames<M>(decode: seq<Byte> -> Option<M>, payloads: seq<seq<Byte>>)
    requires forall i :: 0 <= i < |payloads| ==> |payloads[i]| <= MAX_MESSAGE
    ensures Drain(decode, Frames(payloads)) == (DecodedAll(decode, payloads), [])
    ensures !OversizedInside(Frames(payloads))
    decreases |payloads|
  {
    if payloads != [] {
      var p, rest := payloads[0], Frames(payloads[1..]);
      var s := Frames(payloads);
      assert s == U32(|p|) + (p + rest);
      ReadBackU32(|p|, p + rest);
      assert s[4..4 + |p|] == p && s[4 + |p|..] == rest;
      DrainFrames(decode, payloads[1..]);
    }
  }

  /** Framed messages of at most 2^20 bytes arrive exactly, in order, with nothing left over, however the
      stream of their frames is cut. */
  lemma {:induction false} FramedMessagesArrive<M(!new)>(decode: seq<Byte> -> Option<M>, encode: M -> seq<Byte>,
                                                        messages: seq<M>, chunks: seq<seq<Byte>>)
    requires forall m :: decode(encode(m)) == Some(m)
    requires forall i :: 0 <= i < |messages| ==> |encode(messages[i])| <= MAX_MESSAGE
    requires Concat(chunks) == Frames(Encoded(encode, messages))
    ensures FeedAll(decode, [], chunks) == (messages, [])
  {
    var payloads := Encoded(encode, messages);
    DrainFrames(decode, payloads);
    EncodedDecode(decode, encode, messages);
    assert [] + Concat(chunks) == Concat(chunks);
    ChunksDoNotMatter(decode, [], chunks);
  }

  function Encoded<M>(encode: M -> seq<Byte>, messages: seq<M>): (r: seq<seq<Byte>>)
    ensures |r| == |messages| && forall i :: 0 <= i < |r| ==> r[i] == encode(messages[i])
  {
    seq(|messages|, i requires 0 <= i < |messages| => encode(messages[i]))
  }

  lemma {:induction false} EncodedDecode<M(!new)>(decode: seq<Byte> -> Option<M>, encode: M -> seq<Byte>,
                                           messages: seq<M>)
    requires forall m :: decode(encode(m)) == Some(m)
    ensures DecodedAll(decode, Encoded(encode, messages)) == messages
    decreases |messages|
  {
    if messages != [] {
      assert Encoded(encode, messages)[1..] == Encoded(encode, messages[1..]);
      EncodedDecode(decode, encode, messages[1..]);
      assert messages == [messages[0]] + messages[1..];
    }
  }
}
