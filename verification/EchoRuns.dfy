/**
 The echo service end to end: it meets the contracts of the engine, and so what it sends is a
 function of the client's stream.
 */
module EchoRuns {
  import opened Text
  import opened MessageHeader
  import opened HeaderPrinter
  import opened IoAdapter
  import opened Session
  import opened Phases
  import opened Processor
  import opened Framing
  import opened FramingRuns
  import opened Responses
  import opened Completion
  import opened EchoHandler

  // ---- The answers to requests ----

  /** What the service answers a request with. */
  function EchoText(r: Request): string {
    PrintHeader(r.header) + r.body
  }

  function EchoHeader(size: nat, statusText: nat -> string): ResponseHeader {
    ResponseHeader(HTTP_1_1, OK, statusText(OK), ResponseFields([], size))
  }

  function EchoOutput(requests: seq<Request>, statusText: nat -> string): string {
    if requests == [] then ""
    else
      var r := requests[|requests| - 1];
      EchoOutput(requests[..|requests| - 1], statusText) + (Serialize(EchoHeader(|EchoText(r)|, statusText)) + EchoText(r))
  }

  /** Response `r` is the answer to request `q`. */
  predicate Answers(r: Response<Echo>, q: Request, statusText: nat -> string) {
    r.header == EchoHeader(|EchoText(q)|, statusText) && PENDING(r.app) == EchoText(q)
  }

  /** As long as there was no error, every request has its answer, and the handler holds the next. */
  ghost predicate Echoing(p: State<Echo>, statusText: nat -> string) {
    var seen := p.session.seen;
    seen.errors == [] ==>
      |seen.responses| == |seen.requests| &&
      (forall i :: 0 <= i < |seen.requests| ==> Answers(seen.responses[i], seen.requests[i], statusText)) &&
      (p.phase.ReadBody? <==> seen.current.Some?) &&
      (seen.current.Some? ==> p.session.app.body == EchoText(seen.current.value))
  }

  /** What a transfer of body octets delivers is added to the request, and to its answer. */
  lemma BodyIsGathered(statusText: nat -> string, p: State<Echo>, r: Request)
    requires InBounds(EchoService(statusText)) && SourceInBounds(SOCKET_SOURCE) && SinkInBounds(BodySink(EchoService(statusText)))
    requires p.phase.ReadBody? && p.session.seen.current == Some(r) && p.session.app.body == EchoText(r)
    ensures var t := Pump(SOCKET_SOURCE, BodySink(EchoService(statusText)), BUFFER_SIZE, p.session.connection,
                          Listener(p.session.app, p.session.seen), p.recv, p.phase.left);
            var extended := r.(body := r.body + t.delivered);
            t.sink.seen == p.session.seen.(current := Some(extended)) && t.sink.app.body == EchoText(extended)
  {
    hide Pump, PrintHeader;
    var h := EchoService(statusText);
    var left, c, l := p.phase.left, p.session.connection, Listener(p.session.app, p.session.seen);
    BodyDelivers(h, c, l, p.recv, left);
    var taken := (x: Listener<Echo>) => x.app.body;
    SinkAccepts(SOCKET_SOURCE, BodySink(h), BUFFER_SIZE, c, l, p.recv, left, taken);
    var t := Pump(SOCKET_SOURCE, BodySink(h), BUFFER_SIZE, c, l, p.recv, left);
    Associates(PrintHeader(r.header), r.body, t.delivered);
  }

  /** A call of the body phase extends the request, or closes it and prepares its answer. */
  lemma BodyCallGathers(statusText: nat -> string, p: State<Echo>, r: Request) returns (extended: Request)
    requires InBounds(EchoService(statusText))
    requires p.phase.ReadBody? && p.session.seen.current == Some(r) && p.session.app.body == EchoText(r)
    ensures var (q, answer) := CallPhase(EchoService(statusText), p);
            var seen := p.session.seen;
            q.phase.ReadBody? &&
            if answer.status == PhaseCompleted then
              q.session.seen == seen.(requests := seen.requests + [extended], current := None, answers := q.session.seen.answers) &&
              q.session.app == Starting(EchoText(extended)) && q.session.response == EchoHeader(|EchoText(extended)|, statusText)
            else
              q.session.seen == seen.(current := Some(extended)) && q.session.app.body == EchoText(extended)
  {
    hide Pump, EchoText, ResponseFields, InBounds;
    var h := EchoService(statusText);
    BodyCallbacksInBounds(h);
    BodyIsGathered(statusText, p, r);
    var t := Pump(SOCKET_SOURCE, BodySink(h), BUFFER_SIZE, p.session.connection,
                  Listener(p.session.app, p.session.seen), p.recv, p.phase.left);
    extended := r.(body := r.body + t.delivered);
    assert h.finalizeBody(t.sink.app, []) == (Starting(t.sink.app.body), ResponseFields([], |t.sink.app.body|), FINE);
  }

  lemma EchoHeaderIsFilled(size: nat, statusText: nat -> string)
    ensures Filled(EchoHeader(size, statusText), statusText) == EchoHeader(size, statusText)
  {
  }

  lemma BodyCallKeepsEchoing(statusText: nat -> string, p: State<Echo>)
    requires InBounds(EchoService(statusText)) && Echoing(p, statusText) && p.phase.ReadBody?
    ensures Echoing(Advance(EchoService(statusText), p).next, statusText)
  {
    hide CallPhase, EchoText, Serialize, EchoHeader, InBounds;
    RoundGrows(EchoService(statusText), p);
    if p.session.seen.errors == [] {
      var extended := BodyCallGathers(statusText, p, p.session.seen.current.value);
      assert EchoText(extended)[0..] == EchoText(extended);
      EchoHeaderIsFilled(|EchoText(extended)|, statusText);
    }
  }

  /** A header that is accepted is what the handler holds, and nothing else of the transcript changes. */
  lemma HeaderCallStarts(statusText: nat -> string, p: State<Echo>)
    requires InBounds(EchoService(statusText)) && p.phase.ReadHeader?
    ensures var (q, answer) := CallPhase(EchoService(statusText), p);
            q.phase.ReadHeader? &&
            if answer.status == PhaseCompleted then
              q.session.seen == p.session.seen.(answers := q.session.seen.answers).Open(q.session.request) &&
              q.session.app.body == EchoText(Request(q.session.request, ""))
            else q.session.seen == p.session.seen
  {
    hide Pump, PrintHeader, InBounds;
    HeaderCallbacksInBounds();
    Neutral(PrintHeader(CallPhase(EchoService(statusText), p).0.session.request));
  }

  lemma WaitCallStays<H(!new)>(h: Handler<H>, p: State<H>)
    requires InBounds(h) && p.phase.WaitForData?
    ensures CallPhase(h, p).0.session.seen == p.session.seen && CallPhase(h, p).0.phase.WaitForData?
  {
  }

  lemma HeaderRoundKeepsEchoing(statusText: nat -> string, p: State<Echo>)
    requires InBounds(EchoService(statusText)) && Echoing(p, statusText) && p.phase.ReadHeader?
    ensures Echoing(Advance(EchoService(statusText), p).next, statusText)
  {
    hide CallPhase, EchoText, Serialize, ResponseFields, Answers, InBounds;
    HeaderCallStarts(statusText, p);
  }

  lemma OtherRoundKeepsEchoing(statusText: nat -> string, p: State<Echo>)
    requires InBounds(EchoService(statusText)) && Echoing(p, statusText) && !p.phase.ReadHeader? && !p.phase.ReadBody?
    ensures Echoing(Advance(EchoService(statusText), p).next, statusText)
  {
    hide CallPhase, EchoText, Serialize, ResponseFields, Answers, InBounds;
    var h := EchoService(statusText);
    CallUsesInput(h, p);
    if p.phase.WaitForData? { WaitCallStays(h, p); } else { WritingKeepsInput(h, p); }
  }

  lemma RoundKeepsEchoing(statusText: nat -> string, p: State<Echo>)
    requires InBounds(EchoService(statusText)) && Echoing(p, statusText)
    ensures Echoing(Advance(EchoService(statusText), p).next, statusText)
  {
    hide Advance, Echoing, InBounds;
    match p.phase
    case ReadHeader(_, _) => HeaderRoundKeepsEchoing(statusText, p);
    case ReadBody(_) => BodyCallKeepsEchoing(statusText, p);
    case _ => OtherRoundKeepsEchoing(statusText, p);
  }

  lemma {:induction false} AnswersAreOutput(responses: seq<Response<Echo>>, requests: seq<Request>, statusText: nat -> string)
    requires |responses| == |requests|
    requires forall i :: 0 <= i < |requests| ==> Answers(responses[i], requests[i], statusText)
    ensures AllResponses(responses, PENDING) == EchoOutput(requests, statusText)
  {
    if requests != [] {
      var n := |requests| - 1;
      AnswersAreOutput(responses[..n], requests[..n], statusText);
      assert Answers(responses[n], requests[n], statusText);
    }
  }

  // ---- The answer to the first error ----

  function ErrorHeader(res: FinalizeResult, statusText: nat -> string): ResponseHeader {
    ResponseHeader(HTTP_1_1, res.httpStatus, statusText(res.httpStatus), ResponseFields([], |res.message|))
  }

  /** Response `r` reports the error `res`. */
  predicate Reports(r: Response<Echo>, res: FinalizeResult, statusText: nat -> string) {
    r.header == ErrorHeader(res, statusText) && PENDING(r.app) == res.message
  }

  /** The requests of a stream have all been answered, and its verdict has been reported after them. */
  ghost predicate Answered(split: Split, responses: seq<Response<Echo>>, statusText: nat -> string) {
    var n := |split.requests|;
    n < |responses| && (forall i :: 0 <= i < n ==> Answers(responses[i], split.requests[i], statusText)) &&
    Reports(responses[n], VerdictOf(split.end), statusText)
  }

  /** A call of the echo service that ends in an error closes no request. */
  lemma ErrorClosesNothing(statusText: nat -> string, p: State<Echo>)
    requires InBounds(EchoService(statusText))
    ensures var (q, answer) := CallPhase(EchoService(statusText), p);
            answer.status == ClientErrorDetected ==> q.session.seen.requests == p.session.seen.requests
  {
    hide Pump, PrintHeader, ResponseFields;
    var h := EchoService(statusText);
    CallUsesInput(h, p);
    match p.phase
    case ReadHeader(_, _) => HeaderCallbacksInBounds();
    case ReadBody(left) =>
      BodyCallbacksInBounds(h);
      BodyDelivers(h, p.session.connection, Listener(p.session.app, p.session.seen), p.recv, left);
    case _ =>
  }

  lemma RejectReports(statusText: nat -> string, p: State<Echo>, res: FinalizeResult)
    ensures var before, after := p.session.seen, Reject(EchoService(statusText), p, res).session.seen;
            after.requests == before.requests && after.errors == before.errors + [res] &&
            |after.responses| == |before.responses| + 1 && before.responses <= after.responses &&
            Reports(after.responses[|before.responses|], res, statusText)
  {
    hide Serialize, ResponseFields;
    assert res.message[0..] == res.message;
  }

  /** A round that gives up on the client closes no request, and starts the report of its error. */
  lemma EchoReports(statusText: nat -> string, p: State<Echo>)
    requires InBounds(EchoService(statusText)) && p.session.seen.errors == []
    requires Advance(EchoService(statusText), p).next.session.seen.errors != []
    ensures var seen, after := p.session.seen, Advance(EchoService(statusText), p).next.session.seen;
            after.requests == seen.requests && |after.responses| == |seen.responses| + 1 &&
            seen.responses <= after.responses && Reports(after.responses[|seen.responses|], after.errors[0], statusText)
  {
    hide CallPhase, Reject, Reports, InBounds;
    var h := EchoService(statusText);
    CallGrows(h, p);
    ErrorClosesNothing(statusText, p);
    var (q, answer) := CallPhase(h, p);
    RejectReports(statusText, q, answer.result);
  }

  ghost predicate EchoingStream(stream: string, p: State<Echo>, statusText: nat -> string) {
    Faithful(stream, p) && Echoing(p, statusText) &&
    (p.session.seen.errors != [] ==> Answered(SplitStream(stream), p.session.seen.responses, statusText))
  }

  lemma RoundKeepsEchoingStream(statusText: nat -> string, stream: string, p: State<Echo>)
    requires InBounds(EchoService(statusText)) && EchoingStream(stream, p, statusText)
    ensures EchoingStream(stream, Advance(EchoService(statusText), p).next, statusText)
  {
    hide Advance, SplitObjected, Framed, Answers, Reports, NeverObjects, TakesContent, Agrees;
    var h := EchoService(statusText);
    EchoNeverRefuses(statusText);
    RoundKeepsFaithful(h, stream, p);
    RoundKeepsEchoing(statusText, p);
    RoundGrows(h, p);
    if p.session.seen.errors == [] && Advance(h, p).next.session.seen.errors != [] {
      RoundKeepsFraming(h, SplitStream(stream), p, NO_OBJECTIONS);
      EchoReports(statusText, p);
    }
  }

  // ---- End to end ----

  /** All that a stream is to be answered with: its requests, and then its verdict. */
  function EchoAll(split: Split, statusText: nat -> string): string {
    var verdict := VerdictOf(split.end);
    EchoOutput(split.requests, statusText) + (Serialize(ErrorHeader(verdict, statusText)) + verdict.message)
  }

  lemma {:induction false} AllResponsesPrefix(responses: seq<Response<Echo>>, n: nat)
    requires n <= |responses|
    ensures AllResponses(responses[..n], PENDING) <= AllResponses(responses, PENDING)
  {
    if n < |responses| {
      var front := responses[..|responses| - 1];
      AllResponsesPrefix(front, n);
      assert front[..n] == responses[..n];
    } else {
      assert responses[..n] == responses;
    }
  }

  lemma {:induction false} EchoOutputPrefix(requests: seq<Request>, n: nat, statusText: nat -> string)
    requires n <= |requests|
    ensures EchoOutput(requests[..n], statusText) <= EchoOutput(requests, statusText)
  {
    if n < |requests| {
      var front := requests[..|requests| - 1];
      EchoOutputPrefix(front, n, statusText);
      assert front[..n] == requests[..n];
    } else {
      assert requests[..n] == requests;
    }
  }

  lemma AnsweredIsEchoAll(split: Split, responses: seq<Response<Echo>>, statusText: nat -> string)
    requires Answered(split, responses, statusText)
    ensures EchoAll(split, statusText) <= AllResponses(responses, PENDING)
  {
    hide Answers, EchoOutput, AllResponses, Serialize, ResponseFields, PrintHeader;
    var n := |split.requests|;
    AnswersAreOutput(responses[..n], split.requests, statusText);
    assert responses[..n + 1] == responses[..n] + [responses[n]];
    AllResponsesAppend(responses[..n], responses[n], PENDING);
    AllResponsesPrefix(responses, n + 1);
  }

  lemma EchoOutputIsStart(split: Split, requests: seq<Request>, statusText: nat -> string)
    requires requests <= split.requests
    ensures EchoOutput(requests, statusText) <= EchoAll(split, statusText)
  {
    hide EchoOutput;
    EchoOutputPrefix(split.requests, |requests|, statusText);
    assert split.requests[..|requests|] == requests;
  }

  /** One string is a prefix of the other. */
  predicate Comparable(a: string, b: string) {
    a <= b || b <= a
  }

  /**
   End to end: over any run in which nothing times out, with any fragmentation of reads and
   writes, the echo service sends what the sequential split of the stream is to be answered
   with: an answer to each request, and then the verdict on the stream, if it comes to that (it
   does not if the client closes while the service waits for the next request).
   While no error has been reported, and the service waits for input, it has sent exactly the
   answers to the requests it has seen; after one, it has sent all of that before it waits.
   */
  lemma EchoesTheStream(statusText: nat -> string, connection: Connection, events: seq<Event>)
    requires OnlyReady(events) && !connection.readDisabled && connection.sent == ""
    ensures var p := Run(EchoService(statusText), Start(connection, SILENT), events);
            var split := SplitStream(connection.unread);
            var seen, sent := p.session.seen, p.session.connection.sent;
            Comparable(sent, EchoAll(split, statusText)) &&
            if seen.errors == [] then
              seen.requests <= split.requests && sent <= EchoOutput(seen.requests, statusText) &&
              (DirectionOf(p.phase) == Input ==> sent == EchoOutput(seen.requests, statusText))
            else
              DirectionOf(p.phase) == Input ==> EchoAll(split, statusText) <= sent
  {
    hide Run, Advance, SuppliesExactly, NeverRefuses, InBounds, SplitStream, Answers, Reports, EchoOutput, EchoAll, AllResponses;
    var h := EchoService(statusText);
    EchoInBounds(statusText);
    EchoNeverRefuses(statusText);
    EchoSupplies(statusText);
    SentIsPrefixOfResponses(h, PENDING, connection, SILENT, events);
    OutcomeDependsOnStreamOnly(h, connection, SILENT, events);
    EchoRunKeepsStream(statusText, connection, events);
    var seen := Run(h, Start(connection, SILENT), events).session.seen;
    var split := SplitStream(connection.unread);
    if seen.errors == [] {
      AnswersAreOutput(seen.responses, seen.requests, statusText);
      EchoOutputIsStart(split, seen.requests, statusText);
    } else {
      AnsweredIsEchoAll(split, seen.responses, statusText);
    }
  }

  lemma EchoRunKeepsStream(statusText: nat -> string, connection: Connection, events: seq<Event>)
    requires InBounds(EchoService(statusText)) && OnlyReady(events) && !connection.readDisabled
    ensures EchoingStream(connection.unread, Run(EchoService(statusText), Start(connection, SILENT), events), statusText)
  {
    hide Advance, Faithful, InBounds, Answered, Answers;
    var h := EchoService(statusText);
    StartIsFaithful(connection, SILENT);
    var inv := (q: State<Echo>) => EchoingStream(connection.unread, q, statusText);
    forall q | inv(q) ensures inv(Advance(h, q).next) { RoundKeepsEchoingStream(statusText, connection.unread, q); }
    RunEnds(h, Start(connection, SILENT), events, inv, (q: State<Echo>, status: ProcessorStatus) => true);
  }

  /**
   And nothing is left out: a ready run that ends regularly, without a failed read or a write
   that takes nothing, has sent the answer to every request of the stream, followed by the
   report of its error if there was one.
   */
  lemma EchoAnswersAll(statusText: nat -> string, connection: Connection, events: seq<Event>)
    requires OnlyReady(events) && !connection.readDisabled && connection.sent == "" && NoFailures(connection)
    ensures var p := Run(EchoService(statusText), Start(connection, SILENT), events);
            var split := SplitStream(connection.unread);
            RunStatus(EchoService(statusText), Start(connection, SILENT), events) == ProcessorCompleted ==>
              if p.session.seen.errors == [] then p.session.connection.sent == EchoOutput(split.requests, statusText)
              else EchoAll(split, statusText) <= p.session.connection.sent
  {
    hide Run, RunStatus, NeverRefuses, InBounds, SplitStream, EchoOutput, EchoAll, NoFailures;
    EchoInBounds(statusText);
    EchoNeverRefuses(statusText);
    EchoesTheStream(statusText, connection, events);
    CompletedRunHasSeenAll(EchoService(statusText), connection, SILENT, events);
    NoRequests(SplitStream(connection.unread).requests);
  }
}
