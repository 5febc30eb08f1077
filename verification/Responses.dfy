/**
 Response framing: for a handler that supplies exactly the body it announces, what has been
 sent is at every moment a prefix of the responses, each header followed by its body.
 */
module Responses {
  import opened Text
  import opened Numbers
  import opened MessageHeader
  import opened IoAdapter
  import opened Session
  import opened Phases
  import opened Processor
  import opened FramingRuns
  import HeaderParser

  /**
   The fields announce the size of `body`, in the only way the server supports: a length
   that parses as a 64-bit number, if the size is one.
   */
  predicate Announces(fields: Fields, body: string) {
    Lookup(fields, "Transfer-encoding") == None &&
    ContentLength(fields) == if |body| < TWO_64 then Some(|body|) else None
  }

  /**
   The contract of a handler, of which `pending` says what body it still has to supply: a
   response that it prepares announces just that, and reading content takes it from there.
   */
  ghost predicate SuppliesExactly<H(!new)>(h: Handler<H>, pending: H -> string) {
    (forall app :: Announces(h.finalizeBody(app, []).1, pending(h.finalizeBody(app, []).0))) &&
    (forall app, res :: Announces(h.finalizeError(app, [], res).1, pending(h.finalizeError(app, [], res).0))) &&
    (forall app, room :: pending(app) == h.readContent(app, room).bytes + pending(h.readContent(app, room).state))
  }

  function ResponseText<H>(r: Response<H>, pending: H -> string): string {
    Serialize(r.header) + pending(r.app)
  }

  /** Everything that the server has undertaken to send. */
  function AllResponses<H>(responses: seq<Response<H>>, pending: H -> string): string {
    if responses == [] then ""
    else AllResponses(responses[..|responses| - 1], pending) + ResponseText(responses[|responses| - 1], pending)
  }

  lemma AllResponsesAppend<H>(responses: seq<Response<H>>, r: Response<H>, pending: H -> string)
    ensures AllResponses(responses + [r], pending) == AllResponses(responses, pending) + ResponseText(r, pending)
  {
    assert (responses + [r])[..|responses|] == responses;
  }

  /** What is still to be sent of the current response. */
  function Owed<H>(p: State<H>, pending: H -> string): string {
    match p.phase
    case WriteHeader(rest) => p.send + (rest + pending(p.session.app))
    case WriteBody(_) => p.send + pending(p.session.app)
    case _ => ""
  }

  /** The response that was started last. */
  function Latest<H>(responses: seq<Response<H>>): Option<Response<H>> {
    if responses == [] then None else Some(responses[|responses| - 1])
  }

  /** The send buffer and the counters fit the phase. */
  ghost predicate WellPlaced<H>(p: State<H>, pending: H -> string) {
    match p.phase
    case WriteHeader(rest) =>
      var latest := Latest(p.session.seen.responses);
      latest.Some? && latest.value.app == p.session.app && latest.value.header.fields == p.session.response.fields &&
      Announces(p.session.response.fields, pending(p.session.app)) &&
      |p.send| + |rest| <= |Serialize(latest.value.header)|
    case WriteBody(left) => left == |p.send| + |pending(p.session.app)|
    case _ => p.send == []
  }

  ghost predicate Delivering<H>(p: State<H>, pending: H -> string) {
    WellPlaced(p, pending) &&
    p.session.connection.sent + Owed(p, pending) == AllResponses(p.session.seen.responses, pending)
  }

  // ---- Transfers to the socket ----

  /** Whatever a source gives up ends up sent or in the buffer, in order. */
  lemma SocketTakes<S(!new), E(!new)>(src: Source<S, E>, s: S, c: Connection, buffer: string, budget: nat, rest: S -> string)
    requires SourceInBounds(src) && SinkInBounds(SOCKET_SINK)
    requires forall x, n {:trigger src.read(x, n)} :: rest(x) == src.read(x, n).bytes + rest(src.read(x, n).state)
    ensures var t := Pump(src, SOCKET_SINK, BUFFER_SIZE, s, c, buffer, budget);
            t.sink.sent + (t.buffer + rest(t.source)) == c.sent + (buffer + rest(s)) &&
            t.budget + |buffer| + |rest(s)| == budget + |t.buffer| + |rest(t.source)|
  {
    var taken := (x: Connection) => x.sent;
    SinkAccepts(src, SOCKET_SINK, BUFFER_SIZE, s, c, buffer, budget, taken);
    SourceGives(src, SOCKET_SINK, BUFFER_SIZE, s, c, buffer, budget, rest);
    Conservation(src, SOCKET_SINK, BUFFER_SIZE, s, c, buffer, budget);
    var t := Pump(src, SOCKET_SINK, BUFFER_SIZE, s, c, buffer, budget);
    hide Pump;
    Associates(c.sent, t.delivered, t.buffer + rest(t.source));
    Associates(t.delivered, t.buffer, rest(t.source));
    Associates(buffer, t.fetched, rest(t.source));
    assert |t.delivered| + |t.buffer| == |t.delivered + t.buffer| == |buffer + t.fetched| == |buffer| + |t.fetched|;
    assert |rest(s)| == |t.fetched| + |rest(t.source)|;
  }

  /** The serializer stops the transfer only when it has nothing left, and all is sent. */
  lemma {:induction false} SerializerRunsDry(rest: string, c: Connection, buffer: string, budget: nat)
    requires SourceInBounds(SERIALIZER) && SinkInBounds(SOCKET_SINK)
    ensures var t := Pump(SERIALIZER, SOCKET_SINK, BUFFER_SIZE, rest, c, buffer, budget);
            t.ending.SourceStopped? ==> t.source == [] && t.buffer == []
    decreases budget, buffer == []
  {
    hide Pump;
    PumpOnce(SERIALIZER, SOCKET_SINK, BUFFER_SIZE, rest, c, buffer, budget);
    if budget > 0 {
      if buffer == [] {
        var got := SERIALIZER.read(rest, BUFFER_SIZE);
        if got.bytes != [] { SerializerRunsDry(got.state, c, got.bytes, budget); }
      } else {
        var span := buffer[..Min(budget, |buffer|)];
        var took := SOCKET_SINK.write(c, span, budget);
        if !(SOCKET_SINK.stops(took.ec) || took.count == 0) {
          SerializerRunsDry(rest, took.state, buffer[took.count..], budget - took.count);
        }
      }
    }
  }

  lemma WriteHeaderCallDelivers<H(!new)>(h: Handler<H>, p: State<H>, pending: H -> string)
    requires InBounds(h) && p.phase.WriteHeader? && Delivering(p, pending)
    ensures var (q, answer) := CallPhase(h, p);
            Delivering(q, pending) && q.session.app == p.session.app && q.session.response == p.session.response &&
            (answer.status == PhaseCompleted ==> q.send == [] && q.phase == WriteHeader([])) &&
            (answer.status == Aborted ==> |Serialize(Latest(p.session.seen.responses).value.header)| >= SIZE_MAX)
  {
    hide Pump, AllResponses, Announces, Serialize;
    WriteHeaderCallbacksInBounds();
    var rest, c := p.phase.rest, p.session.connection;
    WritingKeepsInput(h, p);
    var id := (x: string) => x;
    forall x, n {:trigger SERIALIZER.read(x, n)} ensures id(x) == SERIALIZER.read(x, n).bytes + id(SERIALIZER.read(x, n).state) {
      SplitAt(x, Min(n, |x|));
    }
    SocketTakes(SERIALIZER, rest, c, p.send, SIZE_MAX, id);
    SerializerRunsDry(rest, c, p.send, SIZE_MAX);
    Conservation(SERIALIZER, SOCKET_SINK, BUFFER_SIZE, rest, c, p.send, SIZE_MAX);
    var t := Pump(SERIALIZER, SOCKET_SINK, BUFFER_SIZE, rest, c, p.send, SIZE_MAX);
    SentOnward(t.sink.sent, t.buffer, t.source, c.sent, p.send, rest, pending(p.session.app));
  }

  lemma SentOnward(a: string, b: string, c: string, x: string, y: string, z: string, tail: string)
    requires a + (b + c) == x + (y + z)
    ensures a + (b + (c + tail)) == x + (y + (z + tail))
  {
    Associates(b, c, tail);
    Associates(a, b + c, tail);
    Associates(y, z, tail);
    Associates(x, y + z, tail);
  }

  lemma WriteBodyCallDelivers<H(!new)>(h: Handler<H>, p: State<H>, pending: H -> string)
    requires InBounds(h) && SuppliesExactly(h, pending) && p.phase.WriteBody? && Delivering(p, pending)
    ensures var (q, answer) := CallPhase(h, p);
            Delivering(q, pending) &&
            (answer.status == PhaseCompleted ==> q.send == [] && Owed(q, pending) == []) && answer.status != Aborted
  {
    hide Pump;
    WriteBodyCallbacksInBounds(h);
    var left, c, app := p.phase.left, p.session.connection, p.session.app;
    WritingKeepsInput(h, p);
    forall x, n {:trigger ContentSource(h).read(x, n)}
      ensures pending(x) == ContentSource(h).read(x, n).bytes + pending(ContentSource(h).read(x, n).state)
    {
      assert pending(x) == h.readContent(x, n).bytes + pending(h.readContent(x, n).state);
    }
    SocketTakes(ContentSource(h), app, c, p.send, left, pending);
    Conservation(ContentSource(h), SOCKET_SINK, BUFFER_SIZE, app, c, p.send, left);
  }

  // ---- Rounds ----

  lemma InputCallKeepsOutput<H(!new)>(h: Handler<H>, p: State<H>)
    requires InBounds(h) && DirectionOf(p.phase) == Input
    ensures var (q, answer) := CallPhase(h, p);
            q.session.connection.sent == p.session.connection.sent && q.send == p.send &&
            DirectionOf(q.phase) == Input && answer.status != Aborted
    ensures var (q, answer) := CallPhase(h, p);
            p.phase.ReadBody? && answer.status == PhaseCompleted ==>
              exists app :: q.session.app == h.finalizeBody(app, []).0 && q.session.response.fields == h.finalizeBody(app, []).1
  {
    hide Pump;
    match p.phase
    case ReadHeader(parser, budget) =>
      HeaderCallbacksInBounds();
      InputKeepsSent(HEADER_SINK, p.session.connection, parser, p.recv, budget);
      HeaderNeverStalls(p.session.connection, parser, p.recv, budget);
    case ReadBody(left) =>
      BodyCallbacksInBounds(h);
      InputKeepsSent(BodySink(h), p.session.connection, Listener(p.session.app, p.session.seen), p.recv, left);
    case WaitForData =>
  }

  lemma {:induction false} InputKeepsSent<W(!new), F(!new)>(snk: Sink<W, F>, c: Connection, w: W, buffer: string, budget: nat)
    requires SourceInBounds(SOCKET_SOURCE) && SinkInBounds(snk)
    ensures var t := Pump(SOCKET_SOURCE, snk, BUFFER_SIZE, c, w, buffer, budget);
            t.source.sent == c.sent && t.source.writeEvents == c.writeEvents && t.source.readEvents == c.readEvents
    decreases budget, buffer == []
  {
    if budget > 0 {
      if buffer == [] {
        var got := SOCKET_SOURCE.read(c, BUFFER_SIZE);
        if !(SOCKET_SOURCE.stops(got.ec) || got.bytes == []) {
          InputKeepsSent(snk, got.state, w, got.bytes, budget);
        }
      } else {
        var span := buffer[..Min(budget, |buffer|)];
        var took := snk.write(w, span, budget);
        if !(snk.stops(took.ec) || took.count == 0) {
          InputKeepsSent(snk, c, took.state, buffer[took.count..], budget - took.count);
        }
      }
    }
  }

  /** The parser never stops a transfer to ask for more data, where the source would abort. */
  lemma {:induction false} HeaderNeverStalls(c: Connection, parser: HeaderParser.Parser, buffer: string, budget: nat)
    requires SourceInBounds(SOCKET_SOURCE) && SinkInBounds(HEADER_SINK)
    ensures var t := Pump(SOCKET_SOURCE, HEADER_SINK, BUFFER_SIZE, c, parser, buffer, budget);
            t.ending != SinkStopped(HeaderParser.MoreDataNeeded)
    decreases budget, buffer == []
  {
    hide Pump, HeaderParser.Feed;
    PumpOnce(SOCKET_SOURCE, HEADER_SINK, BUFFER_SIZE, c, parser, buffer, budget);
    if budget > 0 {
      if buffer == [] {
        var got := SOCKET_SOURCE.read(c, BUFFER_SIZE);
        if !(SOCKET_SOURCE.stops(got.ec) || got.bytes == []) {
          HeaderNeverStalls(got.state, parser, got.bytes, budget);
        }
      } else {
        var span := buffer[..Min(budget, |buffer|)];
        var r := HeaderParser.Feed(parser, span);
        if r.ec == HeaderParser.MoreDataNeeded {
          HeaderNeverStalls(c, r.parser, buffer[r.consumed..], budget - r.consumed);
        }
      }
    }
  }

  /** Starting a response adds its whole text to what is owed, and nothing else. */
  lemma EnterKeepsDelivering<H>(h: Handler<H>, p: State<H>, pending: H -> string)
    requires p.send == [] && p.session.connection.sent == AllResponses(p.session.seen.responses, pending)
    requires Announces(p.session.response.fields, pending(p.session.app))
    ensures Delivering(EnterWriteHeader(h, p), pending)
  {
    var s := p.session;
    var header := Filled(s.response, h.statusText);
    AllResponsesAppend(s.seen.responses, Response(header, s.app), pending);
    Neutral(Serialize(header) + pending(s.app));
  }

  lemma RejectKeepsDelivering<H(!new)>(h: Handler<H>, p: State<H>, result: FinalizeResult, pending: H -> string)
    requires SuppliesExactly(h, pending) && Delivering(p, pending) && DirectionOf(p.phase) == Input
    ensures Delivering(Reject(h, p, result), pending)
  {
    var s := p.session;
    var (app, fields) := h.finalizeError(s.app, [], result);
    var response := ResponseHeader(HTTP_1_1, result.httpStatus, h.statusText(result.httpStatus), fields);
    Neutral(s.connection.sent);
    EnterKeepsDelivering(h, p.(session := s.(connection := s.connection.StopReading(), app := app,
                                          response := response, seen := s.seen.Fail(result, p.recv))), pending);
  }

  /** A response fits if its header and its body have sizes below 2^64 - 1 and 2^64. */
  predicate ResponseFits<H>(r: Response<H>, pending: H -> string) {
    |Serialize(r.header)| < SIZE_MAX && |pending(r.app)| < TWO_64
  }

  /** The response that was started last does not fit. */
  predicate LatestIsOversized<H>(p: State<H>, pending: H -> string) {
    var latest := Latest(p.session.seen.responses);
    latest.Some? && !ResponseFits(latest.value, pending)
  }

  lemma InputRoundDelivers<H(!new)>(h: Handler<H>, p: State<H>, pending: H -> string)
    requires InBounds(h) && SuppliesExactly(h, pending) && Delivering(p, pending) && DirectionOf(p.phase) == Input
    ensures Delivering(Advance(h, p).next, pending)
    ensures Advance(h, p).Done? ==> Advance(h, p).status != ProcessorAborted
  {
    hide CallPhase, AllResponses, InBounds;
    var (q, answer) := CallPhase(h, p);
    CallUsesInput(h, p);
    CallGrows(h, p);
    InputCallKeepsOutput(h, p);
    Neutral(p.session.connection.sent);
    assert Delivering(q, pending);
    if answer.status == ClientErrorDetected {
      RejectKeepsDelivering(h, q, answer.result, pending);
    } else if p.phase.ReadBody? && answer.status == PhaseCompleted {
      EnterKeepsDelivering(h, q, pending);
    }
  }

  lemma HeaderRoundDelivers<H(!new)>(h: Handler<H>, p: State<H>, pending: H -> string)
    requires InBounds(h) && Delivering(p, pending) && p.phase.WriteHeader?
    ensures Delivering(Advance(h, p).next, pending)
    ensures Advance(h, p).Done? && Advance(h, p).status == ProcessorAborted ==> LatestIsOversized(Advance(h, p).next, pending)
  {
    hide CallPhase, AllResponses, InBounds;
    CallUsesInput(h, p);
    CallGrows(h, p);
    WriteHeaderCallDelivers(h, p, pending);
    Neutral(pending(p.session.app));
  }

  lemma BodyRoundDelivers<H(!new)>(h: Handler<H>, p: State<H>, pending: H -> string)
    requires InBounds(h) && SuppliesExactly(h, pending) && Delivering(p, pending) && p.phase.WriteBody?
    ensures Delivering(Advance(h, p).next, pending)
    ensures Advance(h, p).Done? ==> Advance(h, p).status != ProcessorAborted
  {
    hide CallPhase, AllResponses, InBounds, SuppliesExactly;
    CallUsesInput(h, p);
    WriteBodyCallDelivers(h, p, pending);
  }

  lemma RoundKeepsDelivering<H(!new)>(h: Handler<H>, p: State<H>, pending: H -> string)
    requires InBounds(h) && SuppliesExactly(h, pending) && Delivering(p, pending)
    ensures Delivering(Advance(h, p).next, pending)
    ensures Advance(h, p).Done? && Advance(h, p).status == ProcessorAborted ==> LatestIsOversized(Advance(h, p).next, pending)
  {
    hide Advance, Delivering, LatestIsOversized, SuppliesExactly, InBounds;
    match p.phase
    case WriteHeader(_) => HeaderRoundDelivers(h, p, pending);
    case WriteBody(_) => BodyRoundDelivers(h, p, pending);
    case _ => InputRoundDelivers(h, p, pending);
  }

  lemma IdleKeepsDelivering<H(!new)>(h: Handler<H>, p: State<H>, pending: H -> string)
    requires SuppliesExactly(h, pending) && Delivering(p, pending)
    ensures Delivering(SocketIsIdle(h, p).0, pending)
  {
    hide Delivering, Reject, SuppliesExactly;
    if DirectionOf(p.phase) == Input {
      RejectKeepsDelivering(h, p, FinalizeResult(REQUEST_TIMEOUT, h.statusText(REQUEST_TIMEOUT)), pending);
    }
  }

  /** Over any run of any events: what was sent and what is owed, and the only reason for an abort. */
  lemma RunKeepsDelivering<H(!new)>(h: Handler<H>, pending: H -> string, connection: Connection, app: H, events: seq<Event>)
    requires InBounds(h) && SuppliesExactly(h, pending) && connection.sent == ""
    ensures var p := Run(h, Start(connection, app), events);
            Delivering(p, pending) &&
            (RunStatus(h, Start(connection, app), events) == ProcessorAborted ==> LatestIsOversized(p, pending))
  {
    hide Advance, SuppliesExactly, LatestIsOversized, SocketIsIdle;
    var inv := (q: State<H>) => Delivering(q, pending);
    var post := (q: State<H>, status: ProcessorStatus) => status == ProcessorAborted ==> LatestIsOversized(q, pending);
    forall q | inv(q)
      ensures inv(Advance(h, q).next) && (Advance(h, q).Done? ==> post(Advance(h, q).next, Advance(h, q).status))
    {
      RoundKeepsDelivering(h, q, pending);
    }
    forall q | inv(q) ensures inv(SocketIsIdle(h, q).0) && post(SocketIsIdle(h, q).0, SocketIsIdle(h, q).1.status) {
      IdleKeepsDelivering(h, q, pending);
      IdleDoesNotAbort(h, q);
    }
    RunEnds(h, Start(connection, app), events, inv, post);
  }

  lemma IdleDoesNotAbort<H>(h: Handler<H>, p: State<H>)
    ensures SocketIsIdle(h, p).1.status != ProcessorAborted
  {
  }

  /**
   Response framing over any run, with any partial writes, blocks, errors and time-outs: what
   was sent and what is still owed are all the responses started, so what was sent is a
   prefix of them; and the send buffer is empty in every phase that reads.
   */
  lemma SentIsPrefixOfResponses<H(!new)>(h: Handler<H>, pending: H -> string, connection: Connection, app: H, events: seq<Event>)
    requires InBounds(h) && SuppliesExactly(h, pending) && connection.sent == ""
    ensures var p := Run(h, Start(connection, app), events);
            var all := AllResponses(p.session.seen.responses, pending);
            p.session.connection.sent <= all && p.session.connection.sent + Owed(p, pending) == all &&
            (DirectionOf(p.phase) == Input ==> p.send == [] && p.session.connection.sent == all)
  {
    hide Run, RunStatus, SuppliesExactly;
    RunKeepsDelivering(h, pending, connection, app, events);
    Neutral(Run(h, Start(connection, app), events).session.connection.sent);
  }

  // ---- No abort ----

  /**
   No run of any events reaches a point where the source would abort or fail an assertion,
   unless it has just started a response whose size 64 bits cannot express.
   */
  lemma AbortsOnlyOversized<H(!new)>(h: Handler<H>, pending: H -> string, connection: Connection, app: H, events: seq<Event>)
    requires InBounds(h) && SuppliesExactly(h, pending) && connection.sent == ""
    ensures RunStatus(h, Start(connection, app), events) == ProcessorAborted ==>
              exists r :: r in Run(h, Start(connection, app), events).session.seen.responses && !ResponseFits(r, pending)
  {
    hide Run, RunStatus, SuppliesExactly, Delivering;
    RunKeepsDelivering(h, pending, connection, app, events);
    var responses := Run(h, Start(connection, app), events).session.seen.responses;
    if RunStatus(h, Start(connection, app), events) == ProcessorAborted {
      assert responses[|responses| - 1] in responses;
    }
  }
}
