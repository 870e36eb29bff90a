/** The chat server fed with bytes: each session has its own frame parser. */
module ChatBytes {
  import opened Bytes
  import opened ChatInvariants
  import opened ChatProtocol
  import opened ChatServer
  import opened Framing
  import opened Options

  type Decoder = seq<Byte> -> Option<Message>

  /** The server and what the parser of each session keeps. */
  datatype Wire = Wire(server: Server, buffers: map<SessionId, seq<Byte>>)

  datatype ByteEvent =
    | Opens(sid: SessionId)
    | Receives(sid: SessionId, data: seq<Byte>)
    | Idles(sid: SessionId)
    | Closes(sid: SessionId)

  function Buffered(w: Wire, sid: SessionId): seq<Byte> {
    if sid in w.buffers then w.buffers[sid] else []
  }

  /** `handleData`: the session's parser takes the bytes, and its messages are handled in order. */
  function Receive(decode: Decoder, hash: string -> Hash, w: Wire, sid: SessionId, data: seq<Byte>): Wire {
    if sid !in w.server.sessions then w
    else
      var (msgs, kept) := Drain(decode, Buffered(w, sid) + data);
      Wire(HandleData(hash, w.server, sid, msgs), w.buffers[sid := kept])
  }

  function ByteStep(decode: Decoder, hash: string -> Hash, w: Wire, e: ByteEvent): Wire {
    match e
    case Opens(sid) => Wire(HandleConnection(w.server, sid), w.buffers[sid := []])
    case Receives(sid, data) => Receive(decode, hash, w, sid, data)
    case Idles(sid) => w.(server := HandleTimeout(w.server, sid))
    case Closes(sid) =>
      if sid in w.server.sessions then Wire(HandleDisconnect(w.server, sid), w.buffers - {sid}) else w
  }

  const QUIET := Wire(ChatServer.START, map[])

  function ByteRun(decode: Decoder, hash: string -> Hash, events: seq<ByteEvent>): Wire {
    if events == [] then QUIET
    else ByteStep(decode, hash, ByteRun(decode, hash, events[..|events|-1]), events[|events|-1])
  }

  // ---------------------------------------------------------------- runs on bytes are runs on messages

  /** The event on messages that `e` amounts to. */
  function Parsed(decode: Decoder, w: Wire, e: ByteEvent): Event {
    match e
    case Opens(sid) => Connects(sid)
    case Receives(sid, data) => Delivers(sid, Drain(decode, Buffered(w, sid) + data).0)
    case Idles(sid) => TimesOut(sid)
    case Closes(sid) => Disconnects(sid)
  }

  function ParsedRun(decode: Decoder, hash: string -> Hash, events: seq<ByteEvent>): (r: seq<Event>)
    ensures |r| == |events|
  {
    if events == [] then []
    else
      var front := events[..|events|-1];
      ParsedRun(decode, hash, front) + [Parsed(decode, ByteRun(decode, hash, front), events[|events|-1])]
  }

  /** Whatever the bytes and however they are cut, the server does what it does on the messages parsed from them. */
  lemma {:induction false} BytesAreMessages(decode: Decoder, hash: string -> Hash, events: seq<ByteEvent>)
    ensures ByteRun(decode, hash, events).server == Run(hash, ParsedRun(decode, hash, events))
    decreases |events|
  {
    if events != [] {
      var front := events[..|events|-1];
      BytesAreMessages(decode, hash, front);
      RunSnoc(hash, ParsedRun(decode, hash, front), Parsed(decode, ByteRun(decode, hash, front), events[|events|-1]));
    }
  }

  ghost predicate FreshOpens(decode: Decoder, hash: string -> Hash, events: seq<ByteEvent>) {
    forall i :: 0 <= i < |events| && events[i].Opens? ==>
      events[i].sid !in ByteRun(decode, hash, events[..i]).server.sessions
  }

  /** So the server invariant holds over every run on bytes. */
  lemma {:induction false} ByteRunsStayValid(decode: Decoder, hash: string -> Hash, events: seq<ByteEvent>)
    requires FreshOpens(decode, hash, events)
    ensures Valid(ByteRun(decode, hash, events).server)
    decreases |events|
  {
    if events == [] {
      RunsStayValid(hash, []);
    } else {
      var n := |events| - 1;
      var front := events[..n];
      forall i | 0 <= i < n && front[i].Opens?
        ensures front[i].sid !in ByteRun(decode, hash, front[..i]).server.sessions
      {
        assert front[..i] == events[..i] && front[i] == events[i];
      }
      ByteRunsStayValid(decode, hash, front);
      var w := ByteRun(decode, hash, front);
      StepKeeps(hash, w.server, Parsed(decode, w, events[n]));
    }
  }

  /** Every event on bytes keeps the server invariant and the stored password hashes. */
  lemma {:induction false} ByteStepKeeps(decode: Decoder, hash: string -> Hash, w: Wire, e: ByteEvent)
    requires Valid(w.server) && (e.Opens? ==> e.sid !in w.server.sessions)
    ensures var r := ByteStep(decode, hash, w, e).server; Valid(r) && HashesKept(w.server, r)
  {
    StepKeeps(hash, w.server, Parsed(decode, w, e));
    StepKeepsHashes(hash, w.server, Parsed(decode, w, e));
    assert ByteStep(decode, hash, w, e).server == Step(hash, w.server, Parsed(decode, w, e));
  }

  // ---------------------------------------------------------------- how the bytes are cut

  function ReceiveAll(decode: Decoder, hash: string -> Hash, w: Wire, sid: SessionId, chunks: seq<seq<Byte>>): Wire
    decreases |chunks|
  {
    if chunks == [] then w else ReceiveAll(decode, hash, Receive(decode, hash, w, sid, chunks[0]), sid, chunks[1..])
  }

  lemma {:induction false} HandleTwo(hash: string -> Hash, s: Server, sid: SessionId, a: seq<Message>, b: seq<Message>)
    requires sid in s.sessions
    ensures HandleMessages(hash, s, sid, a + b) == HandleMessages(hash, HandleMessages(hash, s, sid, a), sid, b)
    decreases |b|
  {
    if b == [] {
      assert a + b == a;
    } else {
      var front := b[..|b|-1];
      assert (a + b)[..|a + b|-1] == a + front && (a + b)[|a + b|-1] == b[|b|-1];
      HandleTwo(hash, s, sid, a, front);
    }
  }

  /** Chunks received one after the other are handled as the parser's output on all of them. */
  lemma {:induction false} ReceivesAreFed(decode: Decoder, hash: string -> Hash, w: Wire, sid: SessionId,
                                          chunks: seq<seq<Byte>>)
    requires sid in w.server.sessions && sid in w.buffers
    ensures var fed := FeedAll(decode, w.buffers[sid], chunks);
            ReceiveAll(decode, hash, w, sid, chunks) ==
            Wire(HandleMessages(hash, w.server, sid, fed.0), w.buffers[sid := fed.1])
    decreases |chunks|
  {
    if chunks == [] {
      assert w.buffers[sid := w.buffers[sid]] == w.buffers;
    } else {
      var w1 := Receive(decode, hash, w, sid, chunks[0]);
      var (ms, kept) := Drain(decode, w.buffers[sid] + chunks[0]);
      ReceivesAreFed(decode, hash, w1, sid, chunks[1..]);
      var (more, last) := FeedAll(decode, kept, chunks[1..]);
      HandleTwo(hash, w.server, sid, ms, more);
      assert w.buffers[sid := kept][sid := last] == w.buffers[sid := last];
    }
  }

  /** Messages of at most 2^20 bytes framed by a client reach the server's handlers exactly, in order, however TCP cuts
      their frames, and leave nothing in the parser. */
  lemma {:induction false} FramedMessagesHandled(decode: Decoder, encode: Message -> seq<Byte>, hash: string -> Hash,
                                                 w: Wire, sid: SessionId, messages: seq<Message>,
                                                 chunks: seq<seq<Byte>>)
    requires forall m :: decode(encode(m)) == Some(m)
    requires forall i :: 0 <= i < |messages| ==> |encode(messages[i])| <= MAX_MESSAGE
    requires Concat(chunks) == Frames(Encoded(encode, messages))
    requires sid in w.server.sessions && sid in w.buffers && w.buffers[sid] == []
    ensures ReceiveAll(decode, hash, w, sid, chunks) == w.(server := HandleMessages(hash, w.server, sid, messages))
  {
    FramedMessagesArrive(decode, encode, messages, chunks);
    ReceivesAreFed(decode, hash, w, sid, chunks);
    assert w.buffers[sid := []] == w.buffers;
  }
}
