/**
 What a session is made of: the connection, the request handler, the data that the phases
 share, and a transcript of what went between the server and the handler.
 */
module Session {
  import opened Text
  import opened Numbers
  import opened MessageHeader
  import opened IoAdapter

  // ---- The connection ----

  datatype OperationResult = Completed | WouldBlock | Failed

  /** What the next read or write finds: progress with some number of octets, or none. */
  datatype ReadEvent = Deliver(most: nat) | ReadBlocks | ReadFails
  datatype WriteEvent = Accept(most: nat) | WriteBlocks | WriteFails

  /**
   A stream socket. `unread` is the rest of the client's stream; after it the client has
   closed its side. Two infinite schedules, indexed by how many calls were made so far, say
   how the calls turn out. `sent` is all that was written.
   */
  datatype Connection = Connection(
    unread: string,
    readEvents: nat -> ReadEvent,
    readCount: nat,
    sent: string,
    writeEvents: nat -> WriteEvent,
    writeCount: nat,
    readDisabled: bool)
  {
    /** A read takes at least one octet unless it blocks, fails, or there are no more. */
    function Read(room: nat): Fetched<Connection, OperationResult> {
      if readDisabled then Fetched(this, "", Completed)
      else
        var next := this.(readCount := readCount + 1);
        match readEvents(readCount)
        case ReadBlocks => Fetched(next, "", WouldBlock)
        case ReadFails => Fetched(next, "", Failed)
        case Deliver(most) =>
          var n := Min(most + 1, Min(room, |unread|));
          Fetched(next.(unread := unread[n..]), unread[..n], Completed)
    }

    function Write(span: string): Taken<Connection, OperationResult> {
      var next := this.(writeCount := writeCount + 1);
      match writeEvents(writeCount)
      case WriteBlocks => Taken(next, 0, WouldBlock)
      case WriteFails => Taken(next, 0, Failed)
      case Accept(most) =>
        var n := Min(most, |span|);
        Taken(next.(sent := sent + span[..n]), n, Completed)
    }

    function StopReading(): Connection {
      this.(readDisabled := true)
    }
  }

  const SOCKET_SOURCE: Source<Connection, OperationResult> :=
    Source((c: Connection, room: nat) => c.Read(room), (r: OperationResult) => r != Completed)

  const SOCKET_SINK: Sink<Connection, OperationResult> :=
    Sink((c: Connection, span: string, budget: nat) => c.Write(span), (r: OperationResult) => r != Completed)

  // ---- The request handler ----

  const OK: nat := 200
  const BAD_REQUEST: nat := 400
  const REQUEST_TIMEOUT: nat := 408
  const REQUEST_ENTITY_TOO_LARGE: nat := 413
  const INTERNAL_SERVER_ERROR: nat := 500
  const HTTP_VERSION_NOT_SUPPORTED: nat := 505

  datatype FinalizeResult = FinalizeResult(httpStatus: nat, message: string)

  /** The three questions the server asks of a handler's error code. */
  datatype HandlerCode = HandlerCode(isError: bool, canContinue: bool, text: string)

  /** A verdict from 400 to 598 is an objection. */
  function Objection(res: FinalizeResult): Option<FinalizeResult> {
    if 400 <= res.httpStatus <= 598 then Some(res) else None
  }

  /**
   A request handler with state `H`: the five entry points that the server calls, as
   functions on that state, and the table of reason phrases.
   */
  datatype Handler<!H> = Handler(
    finalizeHeader: (H, RequestHeader) -> (H, FinalizeResult),
    processContent: (H, string, nat) -> Taken<H, HandlerCode>,
    finalizeBody: (H, Fields) -> (H, Fields, FinalizeResult),
    finalizeError: (H, Fields, FinalizeResult) -> (H, Fields),
    readContent: (H, nat) -> Fetched<H, HandlerCode>,
    statusText: nat -> string)

  /** The handler stays within the spans it is given. */
  ghost predicate InBounds<H(!new)>(h: Handler<H>) {
    (forall app, span, budget :: h.processContent(app, span, budget).count <= |span|) &&
    (forall app, room :: |h.readContent(app, room).bytes| <= room)
  }

  // ---- What the phases share ----

  datatype Request = Request(header: RequestHeader, body: string)

  /** A response as it is when its header is about to be written. */
  datatype Response<H> = Response(header: ResponseHeader, app: H)

  /**
   What the handler has been given, and the responses it has been asked for: requests with
   the whole of their body, the request whose body is being read, and the errors reported,
   each with what was in the receive buffer by then; and what the handler objected to, if
   anything, each time that it was asked about a header or a complete body.
   */
  datatype Transcript<H> = Transcript(
    requests: seq<Request>,
    current: Option<Request>,
    errors: seq<FinalizeResult>,
    leftovers: seq<string>,
    answers: seq<Option<FinalizeResult>>,
    responses: seq<Response<H>>)
  {
    function Open(header: RequestHeader): Transcript<H> {
      this.(current := Some(Request(header, "")))
    }

    function Extend(bytes: string): Transcript<H> {
      match current
      case None => this
      case Some(r) => this.(current := Some(r.(body := r.body + bytes)))
    }

    function Close(): Transcript<H> {
      match current
      case None => this
      case Some(r) => this.(requests := requests + [r], current := None)
    }

    function Ask(res: FinalizeResult): Transcript<H> {
      this.(answers := answers + [Objection(res)])
    }

    function Fail(result: FinalizeResult, unread: string): Transcript<H> {
      this.(current := None, errors := errors + [result], leftovers := leftovers + [unread])
    }

    function Respond(header: ResponseHeader, app: H): Transcript<H> {
      this.(responses := responses + [Response(header, app)])
    }
  }

  datatype SessionState<H> = SessionState(
    connection: Connection,
    app: H,
    request: RequestHeader,
    contentLength: nat,
    response: ResponseHeader,
    seen: Transcript<H>)

  datatype SessionStatus =
    | PhaseCompleted
    | ConnectionClosed
    | MoreDataNeeded
    | ClientErrorDetected
    | WriteResponseFailed
    | IoError
    | Aborted

  datatype StateResponse = StateResponse(status: SessionStatus, result: FinalizeResult)

  const FINE := FinalizeResult(OK, "")

  function ReadResponse(res: OperationResult, atConnClose: string): StateResponse {
    match res
    case Completed => StateResponse(ClientErrorDetected, FinalizeResult(BAD_REQUEST, atConnClose))
    case WouldBlock => StateResponse(MoreDataNeeded, FINE)
    case Failed => StateResponse(IoError, FinalizeResult(INTERNAL_SERVER_ERROR, "I/O error"))
  }

  function WriteResponse(res: OperationResult): StateResponse {
    match res
    case Completed => StateResponse(ConnectionClosed, FINE)
    case WouldBlock => StateResponse(MoreDataNeeded, FINE)
    case Failed => StateResponse(IoError, FinalizeResult(INTERNAL_SERVER_ERROR, "I/O error"))
  }

  // ---- Serializing a response header ----

  function SerializeFields(fields: Fields): string {
    if fields == [] then ""
    else fields[0].name + ": " + fields[0].value + CRLF + SerializeFields(fields[1..])
  }

  /** The header as it is written: an empty reason phrase is taken from the table. */
  function Filled(header: ResponseHeader, statusText: nat -> string): ResponseHeader {
    if header.reason == "" then header.(reason := statusText(header.code)) else header
  }

  function Serialize(header: ResponseHeader): string {
    "HTTP/" + VersionText(header.version) + " " + Decimal(header.code) + " " + header.reason + CRLF +
    SerializeFields(header.fields) + CRLF
  }
}
