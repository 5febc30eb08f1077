/**
 The sizes of the responses of the echo service: on any stream that is shorter than 2^63 octets
 they all fit, so that no run aborts, and every session can be completed.
 */
module EchoSizes {
  import opened Text
  import opened Numbers
  import opened MessageHeader
  import opened HeaderPrinter
  import opened IoAdapter
  import opened Session
  import opened Phases
  import opened Processor
  import opened Framing
  import opened FramingRuns
  import opened Responses
  import opened Progress
  import opened Completion
  import opened EchoHandler
  import opened EchoRuns
  import HeaderParser

  const TWO_63: nat := 0x8000_0000_0000_0000

  // ---- The size of a printed header ----

  function FieldsSize(fields: Fields): nat {
    if fields == [] then 0 else |fields[0].name| + |fields[0].value| + 4 + FieldsSize(fields[1..])
  }

  lemma {:induction false} AppendSize(fields: Fields, name: string, value: string)
    ensures FieldsSize(Append(fields, name, value)) <= FieldsSize(fields) + |name| + |value| + 4
  {
    if fields != [] && StriCmp(name, fields[0].name) > 0 { AppendSize(fields[1..], name, value); }
  }

  lemma {:induction false} PrintFieldsSize(fields: Fields)
    ensures |PrintFields(fields)| == FieldsSize(fields)
  {
    if fields != [] {
      PrintFieldsHead(fields);
      PrintFieldsSize(fields[1..]);
    }
  }

  lemma {:induction false} SerializeFieldsSize(fields: Fields)
    ensures |SerializeFields(fields)| == FieldsSize(fields)
  {
    if fields != [] { SerializeFieldsSize(fields[1..]); }
  }

  /** A coarse bound, which is enough here. */
  lemma {:induction false} DecimalSize(n: nat)
    ensures |Decimal(n)| <= n + 1
  {
    if n >= 10 { DecimalSize(n / 10); }
  }

  /** What a parser holds, as it would be printed. */
  function Weight(p: HeaderParser.Parser): nat {
    |p.header.line.verb| + |p.header.line.target| + FieldsSize(p.header.fields) + |p.name| + |p.buffer|
  }

  lemma StepWeight(p: HeaderParser.Parser, c: char)
    ensures Weight(HeaderParser.Step(p, c).next) <= Weight(p) + 5
  {
    hide Append, RTrim, FieldsSize, IsToken, IsTarget, IsFieldValue, ToNumber;
    RTrimCutsBlanks(p.buffer);
    AppendSize(p.header.fields, p.name, RTrim(p.buffer));
    AppendSize(p.header.fields, p.name, "");
  }

  lemma {:induction false} FeedWeight(p: HeaderParser.Parser, s: string)
    ensures Weight(HeaderParser.Feed(p, s).parser) <= Weight(p) + 5 * HeaderParser.Feed(p, s).consumed
    decreases s
  {
    hide HeaderParser.Step, Weight;
    if s != [] {
      StepWeight(p, s[0]);
      match HeaderParser.Step(p, s[0])
      case Stop(_, _) =>
      case Continue(q) => FeedWeight(q, s[1..]);
    }
  }

  const MAX_PRINTED: nat := 5 * MAX_HEADER_SIZE + 2 * TWO_32 + 16

  lemma PrintedSize(p: HeaderParser.Parser)
    requires Weight(p) <= 5 * MAX_HEADER_SIZE
    ensures |PrintHeader(p.header)| <= MAX_PRINTED
  {
    hide PrintFields, FieldsSize;
    PrintFieldsSize(p.header.fields);
    DecimalSize(p.header.line.version.Major());
    DecimalSize(p.header.line.version.Minor());
  }

  // ---- The size of a response ----

  /** Reason phrases are short. */
  ghost predicate ShortPhrases(statusText: nat -> string) {
    forall code :: |statusText(code)| < TWO_32
  }

  lemma EchoFits(statusText: nat -> string, code: nat, app: Echo)
    requires ShortPhrases(statusText) && |app.body| < TWO_63 + 2 * MAX_PRINTED && app.offset == 0 && code < 1000
    ensures ResponseFits(Response(ResponseHeader(HTTP_1_1, code, statusText(code), ResponseFields([], |app.body|)), app), PENDING)
  {
    hide Append, SerializeFields, FieldsSize, Decimal;
    var size := Decimal(|app.body|);
    DecimalSize(|app.body|);
    DecimalSize(code);
    DecimalSize(HTTP_1_1.Major());
    DecimalSize(HTTP_1_1.Minor());
    AppendSize([], "Content-Length", size);
    AppendSize(Append([], "Content-Length", size), "Content-Type", "text/plain");
    SerializeFieldsSize(ResponseFields([], |app.body|));
    assert FieldsSize([]) == 0 by { EmptySize(); }
    assert app.body[0..] == app.body;
  }

  lemma EmptySize()
    ensures FieldsSize([]) == 0
  {
  }

  // ---- Over whole runs ----

  ghost predicate AllFit(responses: seq<Response<Echo>>) {
    forall r :: r in responses ==> ResponseFits(r, PENDING)
  }

  /**
   What bounds the next response: the rest of the input, the octets that the budget of a header
   has paid for, and in a body phase the text gathered so far.
   */
  ghost predicate Bounded(p: State<Echo>) {
    InputLeft(p) < TWO_63 && AllFit(p.session.seen.responses) &&
    match p.phase
    case ReadHeader(parser, budget) => budget <= MAX_HEADER_SIZE && Weight(parser) <= 5 * (MAX_HEADER_SIZE - budget)
    case ReadBody(_) => |p.session.app.body| + InputLeft(p) < TWO_63 + MAX_PRINTED
    case _ => true
  }

  lemma HeaderCallIsBounded(statusText: nat -> string, p: State<Echo>)
    requires InBounds(EchoService(statusText)) && Bounded(p) && p.phase.ReadHeader?
    ensures var (q, answer) := CallPhase(EchoService(statusText), p);
            if answer.status == PhaseCompleted then |q.session.app.body| <= MAX_PRINTED
            else q.phase.budget <= MAX_HEADER_SIZE && Weight(q.phase.parser) <= 5 * (MAX_HEADER_SIZE - q.phase.budget)
  {
    hide Pump, Weight, PrintHeader, HeaderParser.Feed;
    var ReadHeader(parser, budget) := p.phase;
    var c := p.session.connection;
    HeaderCallbacksInBounds();
    HeaderDelivers(c, parser, p.recv, budget);
    Conservation(SOCKET_SOURCE, HEADER_SINK, BUFFER_SIZE, c, parser, p.recv, budget);
    var t := Pump(SOCKET_SOURCE, HEADER_SINK, BUFFER_SIZE, c, parser, p.recv, budget);
    FeedWeight(parser, t.delivered);
    PrintedSize(t.sink);
    EmptyHeaderIsLighter(t.sink);
  }

  lemma EmptyHeaderIsLighter(p: HeaderParser.Parser)
    ensures Weight(p.(header := EMPTY_HEADER)) <= Weight(p)
  {
  }

  lemma BodyCallIsBounded(statusText: nat -> string, p: State<Echo>)
    requires InBounds(EchoService(statusText)) && Bounded(p) && p.phase.ReadBody?
    ensures var q := CallPhase(EchoService(statusText), p).0;
            |q.session.app.body| + InputLeft(q) < TWO_63 + MAX_PRINTED
    ensures var (q, answer) := CallPhase(EchoService(statusText), p);
            answer.status == PhaseCompleted ==>
              q.session.app.offset == 0 &&
              q.session.response == ResponseHeader(HTTP_1_1, OK, statusText(OK), ResponseFields([], |q.session.app.body|))
  {
    hide Pump, ResponseFields;
    var h := EchoService(statusText);
    var left, c, l := p.phase.left, p.session.connection, Listener(p.session.app, p.session.seen);
    BodyCallbacksInBounds(h);
    var taken := (x: Listener<Echo>) => x.app.body;
    SinkAccepts(SOCKET_SOURCE, BodySink(h), BUFFER_SIZE, c, l, p.recv, left, taken);
    SocketGives(BodySink(h), c, l, p.recv, left);
    var t := Pump(SOCKET_SOURCE, BodySink(h), BUFFER_SIZE, c, l, p.recv, left);
    assert |p.recv| + |c.unread| == |t.delivered| + |t.buffer| + |t.source.unread| by {
      assert |p.recv + c.unread| == |t.delivered + (t.buffer + t.source.unread)|;
    }
    assert |t.sink.app.body| == |p.session.app.body| + |t.delivered|;
    assert h.finalizeBody(t.sink.app, []) == (Starting(t.sink.app.body), ResponseFields([], |t.sink.app.body|), FINE);
  }

  /** An error that the engine reports has a short message. */
  predicate ShortError(answer: StateResponse) {
    answer.status == ClientErrorDetected ==> |answer.result.message| < 64 && answer.result.httpStatus < 1000
  }

  lemma HeaderErrorsAreShort(statusText: nat -> string, p: State<Echo>)
    requires InBounds(EchoService(statusText)) && p.phase.ReadHeader?
    ensures ShortError(CallPhase(EchoService(statusText), p).1)
  {
    hide InBounds, Pump, PrintHeader, HeaderParser.Feed;
    HeaderCallbacksInBounds();
  }

  lemma BodyErrorsAreShort(statusText: nat -> string, p: State<Echo>)
    requires InBounds(EchoService(statusText)) && p.phase.ReadBody?
    ensures ShortError(CallPhase(EchoService(statusText), p).1)
  {
    hide InBounds, NeverRefuses, Pump, ResponseFields;
    var h := EchoService(statusText);
    BodyCallbacksInBounds(h);
    EchoNeverRefuses(statusText);
    BodyOnlyPutOff(h, p.session.connection, Listener(p.session.app, p.session.seen), p.recv, p.phase.left);
  }

  lemma ErrorsAreShort(statusText: nat -> string, p: State<Echo>)
    requires InBounds(EchoService(statusText))
    ensures ShortError(CallPhase(EchoService(statusText), p).1)
  {
    hide CallPhase, InBounds;
    CallUsesInput(EchoService(statusText), p);
    match p.phase
    case ReadHeader(_, _) => HeaderErrorsAreShort(statusText, p);
    case ReadBody(_) => BodyErrorsAreShort(statusText, p);
    case _ =>
  }

  lemma RejectIsBounded(statusText: nat -> string, p: State<Echo>, res: FinalizeResult)
    requires ShortPhrases(statusText) && AllFit(p.session.seen.responses) && InputLeft(p) < TWO_63
    requires |res.message| < TWO_63 && res.httpStatus < 1000
    ensures Bounded(Reject(EchoService(statusText), p, res))
  {
    hide ResponseFields, Serialize;
    EchoFits(statusText, res.httpStatus, Starting(res.message));
  }

  lemma FreshHasNoWeight()
    ensures Weight(HeaderParser.FRESH) == 0
  {
  }

  lemma OneMoreFits(responses: seq<Response<Echo>>, r: Response<Echo>)
    requires AllFit(responses) && ResponseFits(r, PENDING)
    ensures AllFit(responses + [r])
  {
    hide ResponseFits;
  }

  lemma HeaderRoundIsBounded(statusText: nat -> string, p: State<Echo>)
    requires InBounds(EchoService(statusText)) && ShortPhrases(statusText) && Bounded(p) && p.phase.ReadHeader?
    ensures Bounded(Advance(EchoService(statusText), p).next)
  {
    hide CallPhase, Reject, ShortPhrases, InBounds, AllFit, Weight;
    var h := EchoService(statusText);
    var (q, answer) := CallPhase(h, p);
    CallUsesInput(h, p);
    CallGrows(h, p);
    HeaderCallIsBounded(statusText, p);
    ErrorsAreShort(statusText, p);
    if answer.status == ClientErrorDetected { RejectIsBounded(statusText, q, answer.result); }
  }

  lemma BodyRoundIsBounded(statusText: nat -> string, p: State<Echo>)
    requires InBounds(EchoService(statusText)) && ShortPhrases(statusText) && Bounded(p) && p.phase.ReadBody?
    ensures Bounded(Advance(EchoService(statusText), p).next)
  {
    hide CallPhase, Reject, ResponseFields, ResponseFits, Serialize, ShortPhrases, InBounds, AllFit, Weight;
    var h := EchoService(statusText);
    var (q, answer) := CallPhase(h, p);
    CallUsesInput(h, p);
    CallGrows(h, p);
    BodyCallIsBounded(statusText, p);
    ErrorsAreShort(statusText, p);
    if answer.status == ClientErrorDetected {
      RejectIsBounded(statusText, q, answer.result);
    } else if answer.status == PhaseCompleted {
      EchoFits(statusText, OK, q.session.app);
      OneMoreFits(q.session.seen.responses, Response(q.session.response, q.session.app));
    }
  }

  lemma OtherRoundIsBounded(statusText: nat -> string, p: State<Echo>)
    requires InBounds(EchoService(statusText)) && Bounded(p) && !p.phase.ReadHeader? && !p.phase.ReadBody?
    ensures Bounded(Advance(EchoService(statusText), p).next)
  {
    hide CallPhase, Reject, InBounds, AllFit, Weight;
    var h := EchoService(statusText);
    CallUsesInput(h, p);
    CallGrows(h, p);
    FreshHasNoWeight();
  }

  lemma RoundKeepsBounded(statusText: nat -> string, p: State<Echo>)
    requires InBounds(EchoService(statusText)) && ShortPhrases(statusText) && Bounded(p)
    ensures Bounded(Advance(EchoService(statusText), p).next)
  {
    hide Advance, Bounded, ShortPhrases, InBounds;
    match p.phase
    case ReadHeader(_, _) => HeaderRoundIsBounded(statusText, p);
    case ReadBody(_) => BodyRoundIsBounded(statusText, p);
    case _ => OtherRoundIsBounded(statusText, p);
  }

  lemma {:induction false} RunKeepsBounded(statusText: nat -> string, p: State<Echo>, events: seq<Event>)
    requires InBounds(EchoService(statusText)) && ShortPhrases(statusText) && Bounded(p)
    ensures Bounded(Run(EchoService(statusText), p, events))
  {
    hide Advance, Reject, Bounded, ShortPhrases, InBounds;
    var h := EchoService(statusText);
    var inv := (q: State<Echo>) => Bounded(q);
    forall q | inv(q) ensures inv(Advance(h, q).next) { RoundKeepsBounded(statusText, q); }
    forall q | inv(q) ensures inv(SocketIsIdle(h, q).0) {
      if DirectionOf(q.phase) == Input { IdleKeepsBounded(statusText, q); }
    }
    RunKeeps(h, p, events, inv);
  }

  lemma IdleKeepsBounded(statusText: nat -> string, p: State<Echo>)
    requires ShortPhrases(statusText) && Bounded(p) && DirectionOf(p.phase) == Input
    ensures Bounded(SocketIsIdle(EchoService(statusText), p).0)
  {
    hide Reject;
    RejectIsBounded(statusText, p, FinalizeResult(REQUEST_TIMEOUT, statusText(REQUEST_TIMEOUT)));
  }

  lemma StartIsBounded(connection: Connection)
    requires |connection.unread| < TWO_63
    ensures Bounded(Start(connection, SILENT))
  {
  }

  /** The echo service never aborts, over any run of any events on a stream of less than 2^63 octets. */
  lemma EchoNeverAborts(statusText: nat -> string, connection: Connection, events: seq<Event>)
    requires ShortPhrases(statusText) && |connection.unread| < TWO_63 && connection.sent == ""
    ensures RunStatus(EchoService(statusText), Start(connection, SILENT), events) != ProcessorAborted
  {
    hide Run, RunStatus, InBounds, SuppliesExactly, ShortPhrases, ResponseFits;
    EchoInBounds(statusText);
    EchoSupplies(statusText);
    StartIsBounded(connection);
    RunKeepsBounded(statusText, Start(connection, SILENT), events);
    AbortsOnlyOversized(EchoService(statusText), PENDING, connection, SILENT, events);
  }

  lemma EchoNeverStalls(statusText: nat -> string)
    ensures NeverStalls(EchoService(statusText), PENDING)
  {
  }

  /**
   Once reading has been stopped by an error or a time-out, and as long as writes progress, the
   session of the echo service can always be completed by a number of ready events.
   */
  lemma EchoCloses(statusText: nat -> string, connection: Connection, events: seq<Event>) returns (more: seq<Event>)
    requires ShortPhrases(statusText) && |connection.unread| < TWO_63 && connection.sent == "" && WritesProgress(connection)
    requires Run(EchoService(statusText), Start(connection, SILENT), events).session.connection.readDisabled
    ensures OnlyReady(more)
    ensures RunStatus(EchoService(statusText), Run(EchoService(statusText), Start(connection, SILENT), events), more) == ProcessorCompleted
  {
    hide Run, RunStatus, InBounds, SuppliesExactly, NeverStalls, ShortPhrases, WritesProgress, ResponseFits;
    var h := EchoService(statusText);
    EchoInBounds(statusText);
    EchoSupplies(statusText);
    EchoNeverStalls(statusText);
    StartIsBounded(connection);
    RunKeepsBounded(statusText, Start(connection, SILENT), events);
    var p := Run(h, Start(connection, SILENT), events);
    more := StoppedRunCloses(h, PENDING, connection, SILENT, events);
    RunKeepsBounded(statusText, p, more);
  }

  /**
   As long as the socket progresses, some number of ready events makes the echo service answer
   the whole stream and end the session: every request is answered, whatever the fragmentation.
   */
  lemma EchoServesAll(statusText: nat -> string, connection: Connection) returns (events: seq<Event>)
    requires ShortPhrases(statusText) && |connection.unread| < TWO_63 && connection.sent == ""
    requires Progressing(connection) && !connection.readDisabled
    ensures OnlyReady(events) && RunStatus(EchoService(statusText), Start(connection, SILENT), events) == ProcessorCompleted
    ensures var p := Run(EchoService(statusText), Start(connection, SILENT), events);
            var split := SplitStream(connection.unread);
            AllSeen(connection.unread, p) &&
            if p.session.seen.errors == [] then p.session.connection.sent == EchoOutput(split.requests, statusText)
            else EchoAll(split, statusText) <= p.session.connection.sent
  {
    hide Run, RunStatus, InBounds, SuppliesExactly, NeverRefuses, NeverStalls, ShortPhrases, Progressing, NoFailures, AllSeen,
         SplitStream, EchoOutput, EchoAll;
    EchoInBounds(statusText);
    EchoSupplies(statusText);
    EchoNeverRefuses(statusText);
    EchoNeverStalls(statusText);
    events := ProgressServesAll(EchoService(statusText), PENDING, connection, SILENT);
    EchoNeverAborts(statusText, connection, events);
    ProgressHasNoFailures(connection);
    EchoAnswersAll(statusText, connection, events);
  }
}
