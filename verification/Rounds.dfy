/**
 What each round of a session comes to, for every handler: by how the transfer of its phase has
 ended, whether the session goes on or is answered with an error, and with which code.
 */
module Rounds {
  import opened Text
  import opened MessageHeader
  import opened IoAdapter
  import opened Session
  import opened Phases
  import opened Processor
  import opened Framing
  import opened Responses
  import opened FieldMaps
  import HeaderParser

  /**
   The client is given up: reading is stopped, the error is reported with what the receive
   buffer holds, the open request is dropped, and one response is started: that which the
   handler, in state `app`, prepares for the error, with the code of the error, in version 1.1.
   */
  ghost predicate GivesUp<H>(h: Handler<H>, p: State<H>, q: State<H>, app: H, requests: seq<Request>, recv: string, res: FinalizeResult) {
    var seen, after := p.session.seen, q.session.seen;
    q.session.connection.readDisabled && q.recv == recv &&
    after.requests == requests && after.current == None &&
    after.errors == seen.errors + [res] && after.leftovers == seen.leftovers + [recv] &&
    Starts(h, p, q, h.finalizeError(app, [], res), res.httpStatus)
  }

  /** One more response is started, for which the handler has left its state and fields in `prepared`. */
  ghost predicate Starts<H>(h: Handler<H>, p: State<H>, q: State<H>, prepared: (H, Fields), code: nat) {
    q.phase.WriteHeader? && q.direction == Output && q.session.app == prepared.0 &&
    q.session.seen.responses == p.session.seen.responses +
      [Response(ResponseHeader(Version(0x1_0000_0001), code, h.statusText(code), prepared.1), prepared.0)]
  }

  /** The event ends, and nothing is answered or handed over. */
  ghost predicate Stays<H>(p: State<H>, r: Round<H>, status: ProcessorStatus) {
    r.Done? && r.status == status && r.next.direction == p.direction &&
    var seen, after := p.session.seen, r.next.session.seen;
    after.requests == seen.requests && after.errors == seen.errors && after.leftovers == seen.leftovers &&
    after.answers == seen.answers && after.responses == seen.responses &&
    r.next.session.connection.readDisabled == p.session.connection.readDisabled
  }

  /** What becomes of a session whose read has found nothing: the end, a block, or a failure. */
  ghost predicate ReadEnded<H>(h: Handler<H>, p: State<H>, r: Round<H>, app: H, res: OperationResult, recv: string, message: string) {
    match res
    case Completed => r.Go? && GivesUp(h, p, r.next, app, p.session.seen.requests, recv, FinalizeResult(400, message))
    case WouldBlock => Stays(p, r, ProcessorMoreDataNeeded)
    case Failed => Stays(p, r, ProcessorIoError)
  }

  lemma RejectGivesUp<H(!new)>(h: Handler<H>, p: State<H>, q: State<H>, res: FinalizeResult)
    requires q.session.seen.errors == p.session.seen.errors && q.session.seen.leftovers == p.session.seen.leftovers
    requires q.session.seen.responses == p.session.seen.responses
    ensures GivesUp(h, p, Reject(h, q, res), q.session.app, q.session.seen.requests, q.recv, res)
  {
    hide Serialize;
  }

  // ---- The header ----

  /** What becomes of a complete header, of which `recv` lies behind: the server judges first, and then the handler. */
  ghost predicate HeaderJudged<H>(h: Handler<H>, p: State<H>, r: Round<H>, header: RequestHeader, recv: string) {
    var requests := p.session.seen.requests;
    r.Go? &&
    if header.line.version.packed != 0x1_0000_0001 then
      GivesUp(h, p, r.next, p.session.app, requests, recv, FinalizeResult(505, "This web server only supports HTTP version 1.1"))
    else
      match ContentLength(header.fields)
      case None => GivesUp(h, p, r.next, p.session.app, requests, recv, FinalizeResult(400, "Bad content-length"))
      case Some(n) =>
        var (app, res) := h.finalizeHeader(p.session.app, header);
        if 400 <= res.httpStatus <= 598 then GivesUp(h, p, r.next, app, requests, recv, res)
        else
          r.next.phase == ReadBody(n) && r.next.session.app == app && r.next.recv == recv && r.next.direction == Input &&
          r.next.session.seen.current == Some(Request(header, "")) && r.next.session.seen.requests == requests &&
          r.next.session.seen.errors == p.session.seen.errors && r.next.session.seen.responses == p.session.seen.responses &&
          r.next.session.connection.readDisabled == p.session.connection.readDisabled
  }

  /** What a client is told is wrong with its header. */
  lemma ErrorTexts()
    ensures HeaderParser.ErrorText(HeaderParser.MoreDataNeeded) == "Header truncated"
    ensures HeaderParser.ErrorText(HeaderParser.BadRequestMethod) == "Bad request method"
    ensures HeaderParser.ErrorText(HeaderParser.BadRequestTarget) == "Bad request target"
    ensures HeaderParser.ErrorText(HeaderParser.WrongProtocol) == "Wrong protocol"
    ensures HeaderParser.ErrorText(HeaderParser.BadProtocolVersion) == "Bad protocol version"
    ensures HeaderParser.ErrorText(HeaderParser.ExpectedLinefeed) == "Expected linefeed"
    ensures HeaderParser.ErrorText(HeaderParser.BadFieldName) == "Bad field name"
    ensures HeaderParser.ErrorText(HeaderParser.BadFieldValue) == "Bad field value"
  {
  }

  lemma HeaderIsJudged<H(!new)>(h: Handler<H>, p: State<H>, t: Transfer<Connection, HeaderParser.Parser, OperationResult, HeaderParser.ErrorCode>)
    requires p.phase.ReadHeader? && p.direction == Input && p.session.seen.current == None
    ensures var s := p.session.(connection := t.source);
            var (s', answer) := HeaderVerdict(h, s, t.sink.header);
            var phase := ReadHeader(t.sink.(header := EMPTY_HEADER), t.budget);
            t.source.readDisabled == p.session.connection.readDisabled ==>
              HeaderJudged(h, p, Conclude(h, p.(phase := phase, session := s', recv := t.buffer), answer), t.sink.header, t.buffer)
  {
    hide Serialize, ContentLength;
  }

  lemma HeaderRound<H(!new)>(h: Handler<H>, p: State<H>)
    requires InBounds(h) && p.phase.ReadHeader? && p.direction == Input && p.session.seen.current == None
    requires SourceInBounds(SOCKET_SOURCE) && SinkInBounds(HEADER_SINK)
    ensures var t := Pump(SOCKET_SOURCE, HEADER_SINK, BUFFER_SIZE, p.session.connection, p.phase.parser, p.recv, p.phase.budget);
            var r := Advance(h, p);
            var requests := p.session.seen.requests;
            match t.ending
            case SourceStopped(ec) => ReadEnded(h, p, r, p.session.app, ec, t.buffer, "Header truncated")
            case SinkStopped(ec) =>
              (ec == HeaderParser.Completed ==> HeaderJudged(h, p, r, t.sink.header, t.buffer)) &&
              (ec != HeaderParser.Completed ==>
                 r.Go? && GivesUp(h, p, r.next, p.session.app, requests, t.buffer, FinalizeResult(400, HeaderParser.ErrorText(ec))))
            case BudgetSpent => r.Go? && GivesUp(h, p, r.next, p.session.app, requests, t.buffer, FinalizeResult(413, "Header truncated"))
  {
    hide Pump, InBounds, HeaderVerdict, HeaderJudged, HeaderParser.ErrorText, Reject, GivesUp;
    var t := Pump(SOCKET_SOURCE, HEADER_SINK, BUFFER_SIZE, p.session.connection, p.phase.parser, p.recv, p.phase.budget);
    ErrorTexts();
    HeaderIsJudged(h, p, t);
    SocketEnds(HEADER_SINK, p.session.connection, p.phase.parser, p.recv, p.phase.budget);
    HeaderNeverAsks(p.session.connection, p.phase.parser, p.recv, p.phase.budget);
    var q := p.(phase := ReadHeader(t.sink, t.budget), session := p.session.(connection := t.source), recv := t.buffer);
    RejectGivesUp(h, p, q, CallPhase(h, p).1.result);
  }

  lemma HeaderNeverAsks(c: Connection, parser: HeaderParser.Parser, buffer: string, budget: nat)
    requires SourceInBounds(SOCKET_SOURCE) && SinkInBounds(HEADER_SINK)
    ensures Pump(SOCKET_SOURCE, HEADER_SINK, BUFFER_SIZE, c, parser, buffer, budget).ending != SinkStopped(HeaderParser.MoreDataNeeded)
  {
    HeaderNeverStalls(c, parser, buffer, budget);
  }

  // ---- The body ----

  /** What becomes of a complete request: the handler judges it, and prepares its response. */
  ghost predicate BodyJudged<H>(h: Handler<H>, p: State<H>, r: Round<H>, app: H, request: Request, recv: string) {
    var requests := p.session.seen.requests + [request];
    var (app', fields, res) := h.finalizeBody(app, []);
    r.Go? &&
    if 400 <= res.httpStatus <= 598 then GivesUp(h, p, r.next, app', requests, recv, res)
    else
      r.next.recv == recv && Starts(h, p, r.next, (app', fields), res.httpStatus) &&
      r.next.session.seen.requests == requests && r.next.session.seen.current == None &&
      r.next.session.seen.errors == p.session.seen.errors &&
      r.next.session.connection.readDisabled == p.session.connection.readDisabled
  }

  lemma BodyIsJudged<H(!new)>(h: Handler<H>, p: State<H>, q: State<H>)
    requires q.phase.ReadBody? && q.session.seen.current.Some?
    requires q.session.seen.requests == p.session.seen.requests && q.session.seen.errors == p.session.seen.errors
    requires q.session.seen.leftovers == p.session.seen.leftovers && q.session.seen.responses == p.session.seen.responses
    requires q.session.connection.readDisabled == p.session.connection.readDisabled
    ensures var (s, answer) := BodyCompleted(h, q.session);
            BodyJudged(h, p, Conclude(h, q.(session := s), answer), q.session.app, q.session.seen.current.value, q.recv)
  {
    hide Serialize, Reject, GivesUp;
    var (s, answer) := BodyCompleted(h, q.session);
    if answer.status == ClientErrorDetected { RejectGivesUp(h, p, q.(session := s), answer.result); }
  }

  lemma BodyRound<H(!new)>(h: Handler<H>, p: State<H>)
    requires InBounds(h) && p.phase.ReadBody? && p.direction == Input && p.session.seen.current.Some?
    requires SourceInBounds(SOCKET_SOURCE) && SinkInBounds(BodySink(h))
    ensures var t := Pump(SOCKET_SOURCE, BodySink(h), BUFFER_SIZE, p.session.connection,
                          Listener(p.session.app, p.session.seen), p.recv, p.phase.left);
            var r := Advance(h, p);
            var request := p.session.seen.current.value;
            match t.ending
            case SourceStopped(ec) => ReadEnded(h, p, r, t.sink.app, ec, t.buffer, "Client claims there is more data to read")
            case SinkStopped(ec) =>
              if ec.canContinue && t.budget != 0 then
                Stays(p, r, ProcessorMoreDataNeeded) && r.next.phase == ReadBody(t.budget) && r.next.recv == t.buffer
              else r.Go? && GivesUp(h, p, r.next, t.sink.app, p.session.seen.requests, "", FinalizeResult(400, ec.text))
            case BudgetSpent =>
              BodyJudged(h, p, r, t.sink.app, request.(body := request.body + t.delivered), t.buffer)
  {
    hide Pump, InBounds, Reject, GivesUp, BodyJudged, BodyCompleted;
    SocketEnds(BodySink(h), p.session.connection, Listener(p.session.app, p.session.seen), p.recv, p.phase.left);
    BodyDelivers(h, p.session.connection, Listener(p.session.app, p.session.seen), p.recv, p.phase.left);
    var t := Pump(SOCKET_SOURCE, BodySink(h), BUFFER_SIZE, p.session.connection, Listener(p.session.app, p.session.seen), p.recv, p.phase.left);
    var q := p.(phase := ReadBody(t.budget), recv := t.buffer,
                session := p.session.(connection := t.source, app := t.sink.app, seen := t.sink.seen));
    match t.ending
    case SourceStopped(_) => RejectGivesUp(h, p, q, CallPhase(h, p).1.result);
    case SinkStopped(_) => RejectGivesUp(h, p, q.(recv := ""), CallPhase(h, p).1.result);
    case BudgetSpent => BodyIsJudged(h, p, q);
  }

  /**
   The handler is told with each span how much of the body is still to come, that span included:
   whatever it keeps about its state and that number is true of the state it is left in, and of
   what is missing by then.
   */
  lemma {:induction false} HandlerCountsDown<H(!new)>(h: Handler<H>, c: Connection, l: Listener<H>, buffer: string, left: nat, inv: (H, nat) -> bool)
    requires SourceInBounds(SOCKET_SOURCE) && SinkInBounds(BodySink(h)) && inv(l.app, left)
    requires forall app, span: string, n: nat {:trigger h.processContent(app, span, n)} ::
               var took := h.processContent(app, span, n);
               inv(app, n) && 0 < |span| <= n && took.count <= n ==> inv(took.state, n - took.count)
    ensures var t := Pump(SOCKET_SOURCE, BodySink(h), BUFFER_SIZE, c, l, buffer, left);
            inv(t.sink.app, t.budget)
    decreases left, buffer == []
  {
    hide Pump;
    PumpOnce(SOCKET_SOURCE, BodySink(h), BUFFER_SIZE, c, l, buffer, left);
    if left > 0 {
      if buffer == [] {
        var got := SOCKET_SOURCE.read(c, BUFFER_SIZE);
        if got.ec == Completed && got.bytes != [] { HandlerCountsDown(h, got.state, l, got.bytes, left, inv); }
      } else {
        var took := BodySink(h).write(l, buffer[..Min(left, |buffer|)], left);
        if !took.ec.isError && took.count != 0 {
          HandlerCountsDown(h, c, took.state, buffer[took.count..], left - took.count, inv);
        }
      }
    }
  }

  // ---- The response ----

  /** What becomes of a session whose write has taken nothing more. */
  ghost predicate WriteEnded<H>(p: State<H>, r: Round<H>, res: OperationResult) {
    match res
    case Completed => Stays(p, r, ProcessorCompleted)
    case WouldBlock => Stays(p, r, ProcessorMoreDataNeeded)
    case Failed => Stays(p, r, ProcessorIoError)
  }

  lemma WriteHeaderRound<H(!new)>(h: Handler<H>, p: State<H>)
    requires InBounds(h) && p.phase.WriteHeader? && p.direction == Output
    requires SourceInBounds(SERIALIZER) && SinkInBounds(SOCKET_SINK)
    ensures var t := Pump(SERIALIZER, SOCKET_SINK, BUFFER_SIZE, p.phase.rest, p.session.connection, p.send, 0xFFFF_FFFF_FFFF_FFFF);
            var r := Advance(h, p);
            var fields := p.session.response.fields;
            match t.ending
            case SourceStopped(_) =>
              if Lookup(fields, "transfer-encoding") != None || ContentLength(fields) == None then Stays(p, r, ProcessorAborted)
              else r.Go? && r.next.phase == WriteBody(ContentLength(fields).value) && r.next.direction == Output &&
                   r.next.session.seen == p.session.seen
            case SinkStopped(ec) => WriteEnded(p, r, ec)
            case BudgetSpent => Stays(p, r, ProcessorAborted)
  {
    hide Pump, InBounds, Lookup, ContentLength, Serialize;
    WritingKeepsInput(h, p);
    AnySpelling(p.session.response.fields);
  }

  lemma {:induction false} AnySpelling(fields: Fields)
    ensures Lookup(fields, "Transfer-encoding") == Lookup(fields, "transfer-encoding")
  {
    if fields != [] {
      SpelledAlike(fields[0].name);
      AnySpelling(fields[1..]);
    }
  }

  lemma SpelledAlike(name: string)
    ensures SameName("Transfer-encoding", name) <==> SameName("transfer-encoding", name)
  {
    hide StriCmp;
    SameLettersOfWords();
    SameNameTransfers("Transfer-encoding", "transfer-encoding", name);
  }

  lemma SameLettersOfWords()
    ensures SameName("Transfer-encoding", "transfer-encoding")
  {
    var tail := "ransfer-encoding";
    assert "Transfer-encoding"[1..] == tail && "transfer-encoding"[1..] == tail;
    StriCmpZero(tail, tail);
  }

  lemma WriteBodyRound<H(!new)>(h: Handler<H>, p: State<H>)
    requires InBounds(h) && p.phase.WriteBody? && p.direction == Output
    requires SourceInBounds(ContentSource(h)) && SinkInBounds(SOCKET_SINK)
    ensures var t := Pump(ContentSource(h), SOCKET_SINK, BUFFER_SIZE, p.session.app, p.session.connection, p.send, p.phase.left);
            var r := Advance(h, p);
            match t.ending
            case SourceStopped(ec) => Stays(p, r, if ec.canContinue then ProcessorMoreDataNeeded else ProcessorApplicationError)
            case SinkStopped(ec) => WriteEnded(p, r, ec)
            case BudgetSpent =>
              r.Go? && r.next.phase.WaitForData? && r.next.direction == Input && r.next.session.seen == p.session.seen
  {
    hide Pump, InBounds;
    WritingKeepsInput(h, p);
  }

  /** The result of a failure: 500, with the handler's own words if it is the handler that has failed. */
  lemma FailuresAre500<H(!new)>(h: Handler<H>, p: State<H>)
    requires InBounds(h)
    ensures var answer := CallPhase(h, p).1;
            (answer.status == IoError ==> answer.result == FinalizeResult(500, "I/O error")) &&
            (answer.status == WriteResponseFailed ==>
               p.phase.WriteBody? && SourceInBounds(ContentSource(h)) && SinkInBounds(SOCKET_SINK) &&
               var t := Pump(ContentSource(h), SOCKET_SINK, BUFFER_SIZE, p.session.app, p.session.connection, p.send, p.phase.left);
               t.ending.SourceStopped? && answer.result == FinalizeResult(500, t.ending.sourceCode.text))
  {
    hide Pump;
    match p.phase
    case ReadHeader(_, _) => HeaderCallbacksInBounds();
    case ReadBody(_) => BodyCallbacksInBounds(h);
    case WriteHeader(_) => WriteHeaderCallbacksInBounds();
    case WriteBody(_) => WriteBodyCallbacksInBounds(h);
    case WaitForData =>
  }

  // ---- Between requests, and the time-out ----

  lemma WaitRound<H(!new)>(h: Handler<H>, p: State<H>)
    requires InBounds(h) && p.phase.WaitForData? && p.direction == Input
    ensures var r := Advance(h, p);
            var got := p.session.connection.Read(65536);
            if p.recv != "" then
              r == Go(p.(phase := ReadHeader(HeaderParser.FRESH, 65536)))
            else if got.bytes != "" then
              r == Go(p.(phase := ReadHeader(HeaderParser.FRESH, 65536), recv := got.bytes, session := p.session.(connection := got.state)))
            else
              Stays(p, r, if got.ec == WouldBlock then ProcessorMoreDataNeeded else ProcessorCompleted)
  {
  }

  /** A time-out: a client that is waited for is given up with 408; one that does not take its response is dropped. */
  lemma IdleEvent<H>(h: Handler<H>, p: State<H>)
    ensures var (q, result) := SocketIsIdle(h, p);
            if p.phase.WriteHeader? || p.phase.WriteBody? then q == p && result == ProcessResult(ProcessorCompleted, p.direction)
            else
              GivesUp(h, p, q, p.session.app, p.session.seen.requests, p.recv, FinalizeResult(408, h.statusText(408))) &&
              result == ProcessResult(ProcessorMoreDataNeeded, Output)
  {
    hide Serialize;
  }
}
