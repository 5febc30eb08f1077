/**
 The objects of a session, updated in place as the source updates them: the phases with
 their counters, the serializer, and the processor that owns the buffers. Each method is
 proved to have the effect that Phases and Processor state on values.
 */
module Server {
  import opened Text
  import opened Numbers
  import opened MessageHeader
  import opened IoAdapter
  import opened Session
  import opened Phases
  import opened Processor
  import HeaderParser

  class SessionData<H> {
    var connection: Connection
    var app: H
    var request: RequestHeader
    var contentLength: nat
    var response: ResponseHeader
    var seen: Transcript<H>

    function Contents(): SessionState<H>
      reads this
    {
      SessionState(connection, app, request, contentLength, response, seen)
    }

    constructor (connection: Connection, app: H)
      ensures Contents() == Start(connection, app).session
    {
      this.connection, this.app := connection, app;
      request, contentLength, response := EMPTY_HEADER, 0, EMPTY_RESPONSE;
      seen := Transcript([], None, [], [], [], []);
    }
  }

  // ---- The phases ----

  class ReadRequestHeader {
    const parser: HeaderParser.RequestHeaderParser
    var bytesToRead: nat

    ghost function Value(): Phase
      reads this, parser
    {
      ReadHeader(parser.Contents(), bytesToRead)
    }

    constructor (maxHeaderSize: nat)
      ensures fresh(parser) && Value() == ReadHeader(HeaderParser.FRESH, maxHeaderSize)
    {
      parser := new HeaderParser.RequestHeaderParser();
      bytesToRead := maxHeaderSize;
    }

    method SocketIsReady<H(!new)>(h: Handler<H>, buffer: BufferSpan, session: SessionData<H>) returns (answer: StateResponse)
      requires buffer.Valid() && buffer.storage.Length == BUFFER_SIZE
      modifies this, parser, buffer, buffer.storage, session
      ensures buffer.Valid()
      ensures Outcome(Value(), session.Contents(), buffer.Unread(), answer) ==
              ReadHeaderReady(h, old(parser.Contents()), old(bytesToRead), old(session.Contents()), old(buffer.Unread()))
    {
      hide HeaderParser.Step, HeaderParser.Feed, Pump;
      HeaderCallbacksInBounds();
      var c, p, left, ending := TransferData(SOCKET_SOURCE, HEADER_SINK, session.connection, parser.Contents(), buffer, bytesToRead);
      session.connection := c;
      parser.Restore(p);
      bytesToRead := left;
      match ending
      case SourceStopped(ec) =>
        answer := ReadResponse(ec, HeaderParser.ErrorText(HeaderParser.MoreDataNeeded));
      case BudgetSpent =>
        answer := StateResponse(ClientErrorDetected,
          FinalizeResult(REQUEST_ENTITY_TOO_LARGE, HeaderParser.ErrorText(HeaderParser.MoreDataNeeded)));
      case SinkStopped(ec) =>
        if ec == HeaderParser.MoreDataNeeded {
          answer := StateResponse(Aborted, FINE);
        } else if ec == HeaderParser.Completed {
          var header := parser.TakeResult();
          answer := Verdict(h, session, header);
        } else {
          answer := StateResponse(ClientErrorDetected, FinalizeResult(BAD_REQUEST, HeaderParser.ErrorText(ec)));
        }
    }

    /** The checks on a complete header, in the order in which the source makes them. */
    static method Verdict<H>(h: Handler<H>, session: SessionData<H>, header: RequestHeader) returns (answer: StateResponse)
      modifies session
      ensures (session.Contents(), answer) == HeaderVerdict(h, old(session.Contents()), header)
    {
      session.request := header;
      if header.line.version != HTTP_1_1 {
        return StateResponse(ClientErrorDetected,
          FinalizeResult(HTTP_VERSION_NOT_SUPPORTED, "This web server only supports HTTP version 1.1"));
      }
      var length := ContentLength(header.fields);
      if length == None {
        return StateResponse(ClientErrorDetected, FinalizeResult(BAD_REQUEST, "Bad content-length"));
      }
      var (app, res) := h.finalizeHeader(session.app, header);
      session.app := app;
      session.contentLength := length.value;
      session.seen := session.seen.Ask(res);
      if IsError(res.httpStatus) {
        return StateResponse(ClientErrorDetected, res);
      }
      session.seen := session.seen.Open(header);
      return StateResponse(PhaseCompleted, res);
    }
  }

  class ReadRequestBody {
    var contentLength: nat

    constructor (contentLength: nat)
      ensures this.contentLength == contentLength
    {
      this.contentLength := contentLength;
    }

    method SocketIsReady<H(!new)>(h: Handler<H>, buffer: BufferSpan, session: SessionData<H>) returns (answer: StateResponse)
      requires InBounds(h) && buffer.Valid() && buffer.storage.Length == BUFFER_SIZE
      modifies this, buffer, buffer.storage, session
      ensures buffer.Valid()
      ensures Outcome(ReadBody(contentLength), session.Contents(), buffer.Unread(), answer) ==
              ReadBodyReady(h, old(contentLength), old(session.Contents()), old(buffer.Unread()))
    {
      BodyCallbacksInBounds(h);
      var c, l, left, ending :=
        TransferData(SOCKET_SOURCE, BodySink(h), session.connection, Listener(session.app, session.seen), buffer, contentLength);
      session.connection, session.app, session.seen := c, l.app, l.seen;
      contentLength := left;
      match ending
      case SourceStopped(ec) =>
        answer := ReadResponse(ec, "Client claims there is more data to read");
      case SinkStopped(ec) =>
        if ec.canContinue && left != 0 {
          answer := StateResponse(MoreDataNeeded, FINE);
        } else {
          buffer.ResetWithNewLength(0);
          answer := StateResponse(ClientErrorDetected, FinalizeResult(BAD_REQUEST, ec.text));
        }
      case BudgetSpent =>
        var (app, fields, res) := h.finalizeBody(session.app, []);
        session.app := app;
        session.response := ResponseHeader(HTTP_1_1, res.httpStatus, h.statusText(res.httpStatus), fields);
        session.seen := session.seen.Close().Ask(res);
        answer := StateResponse(if IsError(res.httpStatus) then ClientErrorDetected else PhaseCompleted, res);
    }
  }

  class ResponseHeaderSerializer {
    var rangeToWrite: string

    constructor (header: ResponseHeader, statusText: nat -> string)
      ensures rangeToWrite == Serialize(Filled(header, statusText))
    {
      var text := "HTTP/";
      text := text + VersionText(header.version) + " " + Decimal(header.code) + " " +
        (if header.reason == "" then statusText(header.code) else header.reason) + CRLF;
      ghost var line := text;
      for i := 0 to |header.fields|
        invariant text + SerializeFields(header.fields[i..]) == line + SerializeFields(header.fields)
      {
        var item := header.fields[i];
        ghost var rest := header.fields[i..];
        assert rest[0] == item && rest[1..] == header.fields[i + 1..];
        Associates(text, item.name + ": " + item.value + CRLF, SerializeFields(rest[1..]));
        ItemText(text, item);
        text := text + item.name + ": " + item.value + CRLF;
      }
      Neutral(text);
      rangeToWrite := text + CRLF;
    }

    static lemma ItemText(text: string, item: Field)
      ensures text + (item.name + ": " + item.value + CRLF) == text + item.name + ": " + item.value + CRLF
    {
    }

    /** Hands out as much of the rest as there is room for. */
    method SerializeInto(room: nat) returns (bytes: string)
      modifies this
      ensures Fetched(rangeToWrite, bytes, ()) == SERIALIZER.read(old(rangeToWrite), room)
    {
      var n := Min(room, |rangeToWrite|);
      bytes := rangeToWrite[..n];
      rangeToWrite := rangeToWrite[n..];
    }
  }

  class WriteResponseHeader {
    const serializer: ResponseHeaderSerializer

    constructor (header: ResponseHeader, statusText: nat -> string)
      ensures fresh(serializer) && serializer.rangeToWrite == Serialize(Filled(header, statusText))
    {
      serializer := new ResponseHeaderSerializer(header, statusText);
    }

    method SocketIsReady<H>(buffer: BufferSpan, session: SessionData<H>) returns (answer: StateResponse)
      requires buffer.Valid() && buffer.storage.Length == BUFFER_SIZE
      modifies serializer, buffer, buffer.storage, session
      ensures buffer.Valid()
      ensures Outcome(WriteHeader(serializer.rangeToWrite), session.Contents(), buffer.Unread(), answer) ==
              WriteHeaderReady(old(serializer.rangeToWrite), old(session.Contents()), old(buffer.Unread()))
    {
      WriteHeaderCallbacksInBounds();
      var rest, c, left, ending :=
        TransferData(SERIALIZER, SOCKET_SINK, serializer.rangeToWrite, session.connection, buffer, SIZE_MAX);
      serializer.rangeToWrite := rest;
      session.connection := c;
      match ending
      case SourceStopped(_) => answer := StateResponse(PhaseCompleted, FINE);
      case SinkStopped(ec) => answer := WriteResponse(ec);
      case BudgetSpent => answer := StateResponse(Aborted, FINE);
    }
  }

  class WriteResponseBody {
    var bytesToWrite: nat

    constructor (bytesToWrite: nat)
      ensures this.bytesToWrite == bytesToWrite
    {
      this.bytesToWrite := bytesToWrite;
    }

    method SocketIsReady<H(!new)>(h: Handler<H>, buffer: BufferSpan, session: SessionData<H>) returns (answer: StateResponse)
      requires InBounds(h) && buffer.Valid() && buffer.storage.Length == BUFFER_SIZE
      modifies this, buffer, buffer.storage, session
      ensures buffer.Valid()
      ensures Outcome(WriteBody(bytesToWrite), session.Contents(), buffer.Unread(), answer) ==
              WriteBodyReady(h, old(bytesToWrite), old(session.Contents()), old(buffer.Unread()))
    {
      WriteBodyCallbacksInBounds(h);
      var app, c, left, ending :=
        TransferData(ContentSource(h), SOCKET_SINK, session.app, session.connection, buffer, bytesToWrite);
      session.app, session.connection := app, c;
      bytesToWrite := left;
      match ending
      case SourceStopped(ec) =>
        if ec.canContinue {
          answer := StateResponse(MoreDataNeeded, FINE);
        } else {
          answer := StateResponse(WriteResponseFailed, FinalizeResult(INTERNAL_SERVER_ERROR, ec.text));
        }
      case SinkStopped(ec) => answer := WriteResponse(ec);
      case BudgetSpent => answer := StateResponse(PhaseCompleted, FINE);
    }
  }

  class WaitForNextRequest {
    constructor () {}

    method SocketIsReady<H>(buffer: BufferSpan, session: SessionData<H>) returns (answer: StateResponse)
      requires buffer.Valid() && buffer.storage.Length == BUFFER_SIZE
      modifies buffer, buffer.storage, session
      ensures buffer.Valid()
      ensures Outcome(WaitForData, session.Contents(), buffer.Unread(), answer) ==
              WaitReady(old(session.Contents()), old(buffer.Unread()))
    {
      if buffer.begin != buffer.end {
        return StateResponse(PhaseCompleted, FINE);
      }
      var got := session.connection.Read(buffer.storage.Length);
      session.connection := got.state;
      buffer.Fill(got.bytes);
      if got.bytes == [] && got.ec != WouldBlock {
        return StateResponse(ConnectionClosed, FINE);
      }
      match got.ec
      case Completed => return StateResponse(PhaseCompleted, FINE);
      case WouldBlock => return StateResponse(MoreDataNeeded, FINE);
      case Failed => return StateResponse(IoError, FinalizeResult(INTERNAL_SERVER_ERROR, "I/O error"));
    }
  }

  // ---- The processor ----

  /** The object of the current phase: one of five. */
  datatype StateHolder =
    | HeaderReader(headerReader: ReadRequestHeader)
    | BodyReader(bodyReader: ReadRequestBody)
    | HeaderWriter(headerWriter: WriteResponseHeader)
    | BodyWriter(bodyWriter: WriteResponseBody)
    | Waiter(waiter: WaitForNextRequest)
  {
    /** The objects that hold the state of the phase. */
    ghost function Objects(): set<object> {
      match this
      case HeaderReader(o) => {o, o.parser}
      case BodyReader(o) => {o}
      case HeaderWriter(o) => {o, o.serializer}
      case BodyWriter(o) => {o}
      case Waiter(o) => {o}
    }

    ghost function Value(): Phase
      reads Objects()
    {
      match this
      case HeaderReader(o) => o.Value()
      case BodyReader(o) => ReadBody(o.contentLength)
      case HeaderWriter(o) => WriteHeader(o.serializer.rangeToWrite)
      case BodyWriter(o) => WriteBody(o.bytesToWrite)
      case Waiter(_) => WaitForData
    }
  }

  class RequestProcessor<H(!new)> {
    const handler: Handler<H>
    const session: SessionData<H>
    const recv: BufferSpan
    const send: BufferSpan
    var state: StateHolder
    var direction: Direction

    ghost predicate Valid()
      reads this, recv, send
    {
      recv != send && recv.storage != send.storage && recv.Valid() && send.Valid() &&
      recv.storage.Length == send.storage.Length == BUFFER_SIZE && InBounds(handler)
    }

    /** The objects that a session owns whatever its phase. */
    ghost function Parts(): set<object> {
      {session, recv, recv.storage, send, send.storage}
    }

    ghost function Value(): State<H>
      reads this, session, recv, recv.storage, send, send.storage, state.Objects()
      requires Valid()
    {
      State(state.Value(), direction, session.Contents(), recv.Unread(), send.Unread())
    }

    constructor (connection: Connection, handler: Handler<H>, app: H)
      requires InBounds(handler)
      ensures Valid() && Value() == Start(connection, app)
      ensures fresh(Parts()) && fresh(state.Objects())
    {
      this.handler := handler;
      session := new SessionData<H>(connection, app);
      recv := new BufferSpan(BUFFER_SIZE);
      send := new BufferSpan(BUFFER_SIZE);
      var reader := new ReadRequestHeader(MAX_HEADER_SIZE);
      state := HeaderReader(reader);
      direction := Input;
    }

    /** Calls the phase that `state` holds. */
    method CallPhase() returns (answer: StateResponse)
      requires Valid()
      modifies Parts(), state.Objects()
      ensures Valid() && (Value(), answer) == Processor.CallPhase(handler, old(Value()))
    {
      hide ReadHeaderReady, ReadBodyReady, WriteHeaderReady, WriteBodyReady, WaitReady;
      match state
      case HeaderReader(o) => answer := o.SocketIsReady(handler, recv, session);
      case BodyReader(o) => answer := o.SocketIsReady(handler, recv, session);
      case HeaderWriter(o) => answer := o.SocketIsReady(send, session);
      case BodyWriter(o) => answer := o.SocketIsReady(handler, send, session);
      case Waiter(o) => answer := o.SocketIsReady(recv, session);
    }

    /** Enters the phase that writes the current response header. */
    method EnterWriteHeader()
      requires Valid()
      modifies this, session
      ensures Valid() && Value() == Processor.EnterWriteHeader(handler, old(Value())) && fresh(state.Objects())
    {
      session.seen := session.seen.Respond(Filled(session.response, handler.statusText), session.app);
      var writer := new WriteResponseHeader(session.response, handler.statusText);
      state, direction := HeaderWriter(writer), Output;
    }

    /** `make_state_handler`: false where the source asserts something that does not hold. */
    method EnterNextPhase() returns (ok: bool)
      requires Valid()
      modifies this, session
      ensures Valid()
      ensures var p := old(Value());
              match NextPhase(p.phase, p.session.contentLength, Filled(p.session.response, handler.statusText))
              case None => !ok && Value() == p && state == old(state)
              case Some(next) =>
                ok && fresh(state.Objects()) &&
                Value() == if next.WriteHeader? then Processor.EnterWriteHeader(handler, p)
                           else p.(phase := next, direction := DirectionOf(next))
    {
      hide InBounds, Serialize, Lookup, ContentLength, Filled;
      ok := true;
      match state
      case HeaderReader(_) =>
        var reader := new ReadRequestBody(session.contentLength);
        state, direction := BodyReader(reader), Input;
      case BodyReader(_) => EnterWriteHeader();
      case HeaderWriter(_) =>
        var length := ContentLength(session.response.fields);
        FilledKeepsFields(session.response, handler.statusText);
        if Lookup(session.response.fields, "Transfer-encoding") != None || length == None {
          return false;
        }
        var writer := new WriteResponseBody(length.value);
        state, direction := BodyWriter(writer), Output;
      case BodyWriter(_) =>
        var waiter := new WaitForNextRequest();
        state, direction := Waiter(waiter), Input;
      case Waiter(_) =>
        var reader := new ReadRequestHeader(MAX_HEADER_SIZE);
        state, direction := HeaderReader(reader), Input;
    }

    static lemma FilledKeepsFields(header: ResponseHeader, statusText: nat -> string)
      ensures Filled(header, statusText).fields == header.fields
    {
    }

    /** No more reading, and the handler prepares the response to an error. */
    method Reject(result: FinalizeResult)
      requires Valid()
      modifies this, session
      ensures Valid() && Value() == Processor.Reject(handler, old(Value()), result) && fresh(state.Objects())
    {
      session.connection := session.connection.StopReading();
      var (app, fields) := handler.finalizeError(session.app, [], result);
      session.app := app;
      session.response := ResponseHeader(HTTP_1_1, result.httpStatus, handler.statusText(result.httpStatus), fields);
      session.seen := session.seen.Fail(result, recv.storage[recv.begin..recv.end]);
      EnterWriteHeader();
    }

    /** The switch over the answer of a phase: whether the loop ends, and with what status. */
    method Conclude(answer: StateResponse) returns (done: bool, status: ProcessorStatus)
      requires Valid()
      modifies this, session
      ensures Valid() && (state == old(state) || fresh(state.Objects()))
      ensures Processor.Conclude(handler, old(Value()), answer) == if done then Done(Value(), status) else Go(Value())
    {
      done, status := true, ProcessorMoreDataNeeded;
      match answer.status
      case PhaseCompleted =>
        var ok := EnterNextPhase();
        done, status := !ok, ProcessorAborted;
      case ConnectionClosed => status := ProcessorCompleted;
      case MoreDataNeeded => status := ProcessorMoreDataNeeded;
      case ClientErrorDetected =>
        Reject(answer.result);
        done := false;
      case WriteResponseFailed => status := ProcessorApplicationError;
      case IoError => status := ProcessorIoError;
      case Aborted => status := ProcessorAborted;
    }

    method SocketIsReady() returns (result: ProcessResult)
      requires Valid()
      modifies this, Parts(), state.Objects()
      ensures Valid() && (state == old(state) || fresh(state.Objects()))
      ensures (Value(), result) == Processor.SocketIsReady(handler, old(Value()))
    {
      hide InBounds, Processor.CallPhase, Processor.Conclude, Rank, InputMeasure;
      while true
        invariant Valid() && (state == old(state) || fresh(state.Objects()))
        invariant Processor.SocketIsReady(handler, Value()) == Processor.SocketIsReady(handler, old(Value()))
        decreases InputMeasure(Value()), Rank(Value().phase)
      {
        RoundsDescend(handler, Value());
        var answer := CallPhase();
        var done, status := Conclude(answer);
        if done {
          return ProcessResult(status, direction);
        }
      }
    }

    method SocketIsIdle() returns (result: ProcessResult)
      requires Valid()
      modifies this, session
      ensures Valid() && (state == old(state) || fresh(state.Objects()))
      ensures (Value(), result) == Processor.SocketIsIdle(handler, old(Value()))
    {
      var input := state.HeaderReader? || state.BodyReader? || state.Waiter?;
      if input {
        Reject(FinalizeResult(REQUEST_TIMEOUT, handler.statusText(REQUEST_TIMEOUT)));
        return ProcessResult(ProcessorMoreDataNeeded, direction);
      } else {
        return ProcessResult(ProcessorCompleted, direction);
      }
    }
  }
}
