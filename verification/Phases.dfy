/** The five phases of a request, each as the effect of one call of its `socket_is_ready`. */
module Phases {
  import opened Text
  import opened Numbers
  import opened MessageHeader
  import opened IoAdapter
  import opened Session
  import HeaderParser

  const MAX_HEADER_SIZE: nat := 65536
  const SIZE_MAX: nat := TWO_64 - 1

  datatype Phase =
    | ReadHeader(parser: HeaderParser.Parser, budget: nat)
    | ReadBody(left: nat)
    | WriteHeader(rest: string)
    | WriteBody(left: nat)
    | WaitForData

  const NEW_HEADER := ReadHeader(HeaderParser.FRESH, MAX_HEADER_SIZE)

  datatype Direction = Input | Output

  function DirectionOf(phase: Phase): Direction {
    match phase
    case ReadHeader(_, _) => Input
    case ReadBody(_) => Input
    case WriteHeader(_) => Output
    case WriteBody(_) => Output
    case WaitForData => Input
  }

  /** The phase after `phase`; `None` where the source asserts something that does not hold. */
  function NextPhase(phase: Phase, contentLength: nat, response: ResponseHeader): Option<Phase> {
    match phase
    case ReadHeader(_, _) => Some(ReadBody(contentLength))
    case ReadBody(_) => Some(WriteHeader(Serialize(response)))
    case WriteHeader(_) =>
      if Lookup(response.fields, "Transfer-encoding").Some? then None
      else (match ContentLength(response.fields)
            case None => None
            case Some(n) => Some(WriteBody(n)))
    case WriteBody(_) => Some(WaitForData)
    case WaitForData => Some(NEW_HEADER)
  }

  /** A phase after the call, with the session and its buffer, and what it answers. */
  datatype Outcome<H> = Outcome(phase: Phase, session: SessionState<H>, buffer: string, answer: StateResponse)

  // ---- Reading the header ----

  const HEADER_SINK: Sink<HeaderParser.Parser, HeaderParser.ErrorCode> :=
    Sink((p: HeaderParser.Parser, span: string, budget: nat) =>
           var r := HeaderParser.Feed(p, span);
           Taken(r.parser, r.consumed, r.ec),
         (ec: HeaderParser.ErrorCode) => ec != HeaderParser.MoreDataNeeded)

  /** What a completed header leads to: version, content length, then the handler's verdict. */
  function HeaderVerdict<H>(h: Handler<H>, session: SessionState<H>, header: RequestHeader): (SessionState<H>, StateResponse) {
    var s := session.(request := header);
    if header.line.version != HTTP_1_1 then
      (s, StateResponse(ClientErrorDetected,
        FinalizeResult(HTTP_VERSION_NOT_SUPPORTED, "This web server only supports HTTP version 1.1")))
    else match ContentLength(header.fields)
      case None => (s, StateResponse(ClientErrorDetected, FinalizeResult(BAD_REQUEST, "Bad content-length")))
      case Some(n) =>
        var (app, res) := h.finalizeHeader(s.app, header);
        var asked := s.(app := app, contentLength := n, seen := s.seen.Ask(res));
        if IsError(res.httpStatus) then (asked, StateResponse(ClientErrorDetected, res))
        else (asked.(seen := asked.seen.Open(header)), StateResponse(PhaseCompleted, res))
  }

  /** The code mapper of the header phase, once the transfer has ended. */
  function HeaderOutcome<H>(h: Handler<H>, parser: HeaderParser.Parser, budget: nat, session: SessionState<H>,
                            buffer: string, ending: Ending<OperationResult, HeaderParser.ErrorCode>): Outcome<H> {
    var phase := ReadHeader(parser, budget);
    match ending
    case SourceStopped(ec) =>
      Outcome(phase, session, buffer, ReadResponse(ec, HeaderParser.ErrorText(HeaderParser.MoreDataNeeded)))
    case SinkStopped(ec) =>
      if ec == HeaderParser.MoreDataNeeded then
        Outcome(phase, session, buffer, StateResponse(Aborted, FINE))
      else if ec == HeaderParser.Completed then
        var (s, answer) := HeaderVerdict(h, session, parser.header);
        Outcome(ReadHeader(parser.(header := EMPTY_HEADER), budget), s, buffer, answer)
      else
        Outcome(phase, session, buffer,
                StateResponse(ClientErrorDetected, FinalizeResult(BAD_REQUEST, HeaderParser.ErrorText(ec))))
    case BudgetSpent =>
      Outcome(phase, session, buffer,
              StateResponse(ClientErrorDetected,
                FinalizeResult(REQUEST_ENTITY_TOO_LARGE, HeaderParser.ErrorText(HeaderParser.MoreDataNeeded))))
  }

  lemma HeaderCallbacksInBounds()
    ensures SourceInBounds(SOCKET_SOURCE) && SinkInBounds(SOCKET_SINK) && SinkInBounds(HEADER_SINK)
  {
  }

  ghost function ReadHeaderReady<H(!new)>(h: Handler<H>, parser: HeaderParser.Parser, budget: nat,
                                          session: SessionState<H>, buffer: string): Outcome<H>
  {
    HeaderCallbacksInBounds();
    var t := Pump(SOCKET_SOURCE, HEADER_SINK, BUFFER_SIZE, session.connection, parser, buffer, budget);
    HeaderOutcome(h, t.sink, t.budget, session.(connection := t.source), t.buffer, t.ending)
  }

  // ---- Reading the body ----

  /** The handler as a sink for the body, with the record of what it has taken. */
  datatype Listener<H> = Listener(app: H, seen: Transcript<H>)

  function BodySink<H>(h: Handler<H>): Sink<Listener<H>, HandlerCode> {
    Sink((l: Listener<H>, span: string, budget: nat) =>
           var took := h.processContent(l.app, span, budget);
           Taken(Listener(took.state, if took.count <= |span| then l.seen.Extend(span[..took.count]) else l.seen),
                 took.count, took.ec),
         (ec: HandlerCode) => ec.isError)
  }

  /** The response that the handler prepares once it has the whole body. */
  function BodyCompleted<H>(h: Handler<H>, session: SessionState<H>): (SessionState<H>, StateResponse) {
    var (app, fields, res) := h.finalizeBody(session.app, []);
    var response := ResponseHeader(HTTP_1_1, res.httpStatus, h.statusText(res.httpStatus), fields);
    (session.(app := app, response := response, seen := session.seen.Close().Ask(res)),
     StateResponse(if IsError(res.httpStatus) then ClientErrorDetected else PhaseCompleted, res))
  }

  function BodyOutcome<H>(h: Handler<H>, left: nat, session: SessionState<H>, buffer: string,
                          ending: Ending<OperationResult, HandlerCode>): Outcome<H> {
    var phase := ReadBody(left);
    match ending
    case SourceStopped(ec) =>
      Outcome(phase, session, buffer, ReadResponse(ec, "Client claims there is more data to read"))
    case SinkStopped(ec) =>
      if ec.canContinue && left != 0 then Outcome(phase, session, buffer, StateResponse(MoreDataNeeded, FINE))
      else Outcome(phase, session, "", StateResponse(ClientErrorDetected, FinalizeResult(BAD_REQUEST, ec.text)))
    case BudgetSpent =>
      var (s, answer) := BodyCompleted(h, session);
      Outcome(phase, s, buffer, answer)
  }

  lemma BodyCallbacksInBounds<H(!new)>(h: Handler<H>)
    requires InBounds(h)
    ensures SourceInBounds(SOCKET_SOURCE) && SinkInBounds(BodySink(h))
  {
    forall l: Listener<H>, span, budget ensures BodySink(h).write(l, span, budget).count <= |span| {
      assert h.processContent(l.app, span, budget).count <= |span|;
    }
  }

  ghost function ReadBodyReady<H(!new)>(h: Handler<H>, left: nat, session: SessionState<H>, buffer: string): Outcome<H>
    requires InBounds(h)
  {
    BodyCallbacksInBounds(h);
    var t := Pump(SOCKET_SOURCE, BodySink(h), BUFFER_SIZE, session.connection, Listener(session.app, session.seen), buffer, left);
    BodyOutcome(h, t.budget, session.(connection := t.source, app := t.sink.app, seen := t.sink.seen), t.buffer, t.ending)
  }

  // ---- Writing the header ----

  const SERIALIZER: Source<string, ()> :=
    Source((rest: string, room: nat) =>
             var n := Min(room, |rest|);
             Fetched(rest[n..], rest[..n], ()),
           (ec: ()) => false)

  function WriteHeaderOutcome<H>(rest: string, session: SessionState<H>, buffer: string,
                                 ending: Ending<(), OperationResult>): Outcome<H> {
    Outcome(WriteHeader(rest), session, buffer,
            match ending
            case SourceStopped(_) => StateResponse(PhaseCompleted, FINE)
            case SinkStopped(ec) => WriteResponse(ec)
            case BudgetSpent => StateResponse(Aborted, FINE))
  }

  lemma WriteHeaderCallbacksInBounds()
    ensures SourceInBounds(SERIALIZER) && SinkInBounds(SOCKET_SINK)
  {
  }

  ghost function WriteHeaderReady<H>(rest: string, session: SessionState<H>, buffer: string): Outcome<H> {
    WriteHeaderCallbacksInBounds();
    var t := Pump(SERIALIZER, SOCKET_SINK, BUFFER_SIZE, rest, session.connection, buffer, SIZE_MAX);
    WriteHeaderOutcome(t.source, session.(connection := t.sink), t.buffer, t.ending)
  }

  // ---- Writing the body ----

  function ContentSource<H>(h: Handler<H>): Source<H, HandlerCode> {
    Source((app: H, room: nat) => h.readContent(app, room), (ec: HandlerCode) => ec.isError)
  }

  function WriteBodyOutcome<H>(left: nat, session: SessionState<H>, buffer: string,
                               ending: Ending<HandlerCode, OperationResult>): Outcome<H> {
    Outcome(WriteBody(left), session, buffer,
            match ending
            case SourceStopped(ec) =>
              if ec.canContinue then StateResponse(MoreDataNeeded, FINE)
              else StateResponse(WriteResponseFailed, FinalizeResult(INTERNAL_SERVER_ERROR, ec.text))
            case SinkStopped(ec) => WriteResponse(ec)
            case BudgetSpent => StateResponse(PhaseCompleted, FINE))
  }

  lemma WriteBodyCallbacksInBounds<H(!new)>(h: Handler<H>)
    requires InBounds(h)
    ensures SourceInBounds(ContentSource(h)) && SinkInBounds(SOCKET_SINK)
  {
  }

  ghost function WriteBodyReady<H(!new)>(h: Handler<H>, left: nat, session: SessionState<H>, buffer: string): Outcome<H>
    requires InBounds(h)
  {
    WriteBodyCallbacksInBounds(h);
    var t := Pump(ContentSource(h), SOCKET_SINK, BUFFER_SIZE, session.app, session.connection, buffer, left);
    WriteBodyOutcome(t.budget, session.(app := t.source, connection := t.sink), t.buffer, t.ending)
  }

  // ---- Waiting for the next request ----

  function WaitReady<H>(session: SessionState<H>, buffer: string): Outcome<H> {
    if buffer != [] then Outcome(WaitForData, session, buffer, StateResponse(PhaseCompleted, FINE))
    else
      var got := session.connection.Read(BUFFER_SIZE);
      Outcome(WaitForData, session.(connection := got.state), got.bytes,
              if got.bytes == [] && got.ec != WouldBlock then StateResponse(ConnectionClosed, FINE)
              else match got.ec
                   case Completed => StateResponse(PhaseCompleted, FINE)
                   case WouldBlock => StateResponse(MoreDataNeeded, FINE)
                   case Failed => StateResponse(IoError, FinalizeResult(INTERNAL_SERVER_ERROR, "I/O error")))
  }
}
