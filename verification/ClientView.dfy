/**
 What a client makes of a whole session: it reads a header, takes as many octets as the header
 announces for the body, and starts again. It gets exactly the responses that were started.
 */
module ClientView {
  import opened Text
  import opened Numbers
  import opened MessageHeader
  import opened IoAdapter
  import opened Session
  import opened Phases
  import opened Processor
  import opened FramingRuns
  import opened Responses
  import opened ResponseReader
  import HeaderParser

  datatype Message = Message(header: ResponseHeader, body: string)

  /** All messages of a text, if it is made of nothing else. */
  function ReadAll(s: string): Option<seq<Message>>
    decreases |s|
  {
    if s == "" then Some([])
    else match ReadStatusLine(s)
         case None => None
         case Some(reading) =>
           match ContentLength(reading.header.fields)
           case None => None
           case Some(n) =>
             if |reading.rest| < n then None
             else match ReadAll(reading.rest[n..])
                  case None => None
                  case Some(messages) => Some([Message(reading.header, reading.rest[..n])] + messages)
  }

  /** What a response is to the client. */
  function MessageOf<H>(r: Response<H>, pending: H -> string): Message {
    Message(r.header, pending(r.app))
  }

  function MessagesOf<H>(responses: seq<Response<H>>, pending: H -> string): seq<Message> {
    seq(|responses|, i requires 0 <= i < |responses| => MessageOf(responses[i], pending))
  }

  /** A response that a client can read: it is on lines of its own, and announces its body. */
  ghost predicate Clear<H>(r: Response<H>, pending: H -> string) {
    Readable(r.header) && ContentLength(r.header.fields) == Some(|pending(r.app)|)
  }

  lemma {:induction false} AllResponsesHead<H>(responses: seq<Response<H>>, pending: H -> string)
    requires responses != []
    ensures AllResponses(responses, pending) == ResponseText(responses[0], pending) + AllResponses(responses[1..], pending)
  {
    hide ResponseText;
    if |responses| == 1 {
      assert responses[..0] == [] && responses[1..] == [];
      Neutral(ResponseText(responses[0], pending));
    } else {
      var front, last := responses[..|responses| - 1], responses[|responses| - 1];
      AllResponsesHead(front, pending);
      assert responses[1..][..|responses| - 2] == front[1..];
      Associates(ResponseText(responses[0], pending), AllResponses(front[1..], pending), ResponseText(last, pending));
    }
  }

  lemma ReadsMessage<H>(r: Response<H>, pending: H -> string, tail: string)
    requires Clear(r, pending)
    ensures ReadAll(ResponseText(r, pending) + tail) ==
            match ReadAll(tail)
            case None => None
            case Some(messages) => Some([MessageOf(r, pending)] + messages)
  {
    hide ReadStatusLine, Serialize, Readable, ContentLength;
    var body := pending(r.app);
    Associates(Serialize(r.header), body, tail);
    HeaderIsReadBack(r.header, body + tail);
    assert Serialize(r.header) + (body + tail) != "" by { SomethingIsWritten(r.header); }
    assert (body + tail)[..|body|] == body && (body + tail)[|body|..] == tail;
  }

  lemma SomethingIsWritten(header: ResponseHeader)
    ensures Serialize(header) != ""
  {
  }

  /** Reading what was written gives the responses, in order, with their bodies, and nothing else. */
  lemma {:induction false} AllAreReadBack<H>(responses: seq<Response<H>>, pending: H -> string)
    requires forall i :: 0 <= i < |responses| ==> Clear(responses[i], pending)
    ensures ReadAll(AllResponses(responses, pending)) == Some(MessagesOf(responses, pending))
    decreases responses
  {
    hide ResponseText, ReadAll, Clear, AllResponses;
    if responses == [] {
      NothingIsRead<H>(pending);
      assert MessagesOf(responses, pending) == [];
    } else {
      AllResponsesHead(responses, pending);
      AllAreReadBack(responses[1..], pending);
      ReadsMessage(responses[0], pending, AllResponses(responses[1..], pending));
      assert MessagesOf(responses, pending) == [MessageOf(responses[0], pending)] + MessagesOf(responses[1..], pending);
    }
  }

  lemma NothingIsRead<H>(pending: H -> string)
    ensures ReadAll(AllResponses<H>([], pending)) == Some([])
  {
  }

  // ---- Over whole runs ----

  /** What the handler prepares can be read: valid fields, a code of three digits, a phrase on one line. */
  ghost predicate Presentable<H(!new)>(h: Handler<H>) {
    (forall app :: ValidFields(h.finalizeBody(app, []).1) && h.finalizeBody(app, []).2.httpStatus < 1000) &&
    (forall app, res :: ValidFields(h.finalizeError(app, [], res).1)) &&
    (forall app, header :: h.finalizeHeader(app, header).1.httpStatus < 1000) &&
    (forall code :: '\r' !in h.statusText(code))
  }

  /** A response that has been started can be read, if the size of its body can be announced. */
  ghost predicate ClearIfFits<H>(r: Response<H>, pending: H -> string) {
    Readable(r.header) && Announces(r.header.fields, pending(r.app))
  }

  ghost predicate AllClear<H>(p: State<H>, pending: H -> string) {
    forall i :: 0 <= i < |p.session.seen.responses| ==> ClearIfFits(p.session.seen.responses[i], pending)
  }

  lemma VersionIsReadable()
    ensures HTTP_1_1.packed < TWO_64
  {
  }

  lemma RejectIsClear<H(!new)>(h: Handler<H>, p: State<H>, res: FinalizeResult, pending: H -> string)
    requires SuppliesExactly(h, pending) && Presentable(h) && AllClear(p, pending) && res.httpStatus < 1000
    ensures AllClear(Reject(h, p, res), pending)
  {
    hide Announces, Serialize, ValidFields, HTTP_1_1;
    VersionIsReadable();
  }

  lemma BodyCallIsClear<H(!new)>(h: Handler<H>, p: State<H>, pending: H -> string)
    requires InBounds(h) && SuppliesExactly(h, pending) && Presentable(h) && p.phase.ReadBody?
    ensures var (q, answer) := CallPhase(h, p);
            answer.status == PhaseCompleted ==>
              ClearIfFits(Response(Filled(q.session.response, h.statusText), q.session.app), pending)
  {
    hide Pump, Announces, ValidFields, InBounds, HTTP_1_1;
    BodyCallbacksInBounds(h);
    VersionIsReadable();
  }

  /** The codes of errors have three digits. */
  lemma ErrorCodesAreShort<H(!new)>(h: Handler<H>, p: State<H>)
    requires InBounds(h) && Presentable(h)
    ensures var answer := CallPhase(h, p).1;
            answer.status == ClientErrorDetected ==> answer.result.httpStatus < 1000
  {
    hide CallPhase, InBounds, Presentable;
    CallUsesInput(h, p);
    match p.phase
    case ReadHeader(_, _) => HeaderCodesAreShort(h, p);
    case ReadBody(_) => BodyCodesAreShort(h, p);
    case _ =>
  }

  lemma HeaderCodesAreShort<H(!new)>(h: Handler<H>, p: State<H>)
    requires InBounds(h) && Presentable(h) && p.phase.ReadHeader?
    ensures CallPhase(h, p).1.status == ClientErrorDetected ==> CallPhase(h, p).1.result.httpStatus < 1000
  {
    hide Pump, InBounds, HeaderParser.ErrorText;
    HeaderCallbacksInBounds();
  }

  lemma BodyCodesAreShort<H(!new)>(h: Handler<H>, p: State<H>)
    requires InBounds(h) && Presentable(h) && p.phase.ReadBody?
    ensures CallPhase(h, p).1.status == ClientErrorDetected ==> CallPhase(h, p).1.result.httpStatus < 1000
  {
    hide Pump, InBounds;
    BodyCallbacksInBounds(h);
  }

  lemma RoundKeepsClear<H(!new)>(h: Handler<H>, p: State<H>, pending: H -> string)
    requires InBounds(h) && SuppliesExactly(h, pending) && Presentable(h) && AllClear(p, pending)
    ensures AllClear(Advance(h, p).next, pending)
  {
    hide CallPhase, Reject, ClearIfFits, InBounds, Presentable, SuppliesExactly;
    var (q, answer) := CallPhase(h, p);
    CallGrows(h, p);
    CallUsesInput(h, p);
    if answer.status == ClientErrorDetected {
      ErrorCodesAreShort(h, p);
      RejectIsClear(h, q, answer.result, pending);
    } else if p.phase.ReadBody? {
      BodyCallIsClear(h, p, pending);
    }
  }

  lemma IdleKeepsClear<H(!new)>(h: Handler<H>, p: State<H>, pending: H -> string)
    requires SuppliesExactly(h, pending) && Presentable(h) && AllClear(p, pending)
    ensures AllClear(SocketIsIdle(h, p).0, pending)
  {
    hide Reject, AllClear, Presentable, SuppliesExactly;
    if DirectionOf(p.phase) == Input {
      RejectIsClear(h, p, FinalizeResult(REQUEST_TIMEOUT, h.statusText(REQUEST_TIMEOUT)), pending);
    }
  }

  /**
   Over any run of any events: whenever the server reads, a client that reads what it has been
   sent gets exactly the responses that were started, each with the whole of its body, as long
   as 64 bits can express their sizes.
   */
  lemma ClientReadsResponses<H(!new)>(h: Handler<H>, pending: H -> string, connection: Connection, app: H, events: seq<Event>)
    requires InBounds(h) && SuppliesExactly(h, pending) && Presentable(h) && connection.sent == ""
    ensures var p := Run(h, Start(connection, app), events);
            var responses := p.session.seen.responses;
            DirectionOf(p.phase) == Input && (forall r :: r in responses ==> |pending(r.app)| < TWO_64) ==>
              ReadAll(p.session.connection.sent) == Some(MessagesOf(responses, pending))
  {
    hide Advance, AllClear, Presentable, SuppliesExactly, InBounds, ReadAll, MessagesOf;
    SentIsPrefixOfResponses(h, pending, connection, app, events);
    var inv := (q: State<H>) => AllClear(q, pending);
    forall q | inv(q) ensures inv(Advance(h, q).next) { RoundKeepsClear(h, q, pending); }
    forall q | inv(q) ensures inv(SocketIsIdle(h, q).0) { IdleKeepsClear(h, q, pending); }
    StartIsClear(connection, app, pending);
    RunKeeps(h, Start(connection, app), events, inv);
    var p := Run(h, Start(connection, app), events);
    if forall r :: r in p.session.seen.responses ==> |pending(r.app)| < TWO_64 {
      FittingIsClear(p, pending);
      AllAreReadBack(p.session.seen.responses, pending);
    }
  }

  lemma StartIsClear<H>(connection: Connection, app: H, pending: H -> string)
    ensures AllClear(Start(connection, app), pending)
  {
  }

  lemma FittingIsClear<H>(p: State<H>, pending: H -> string)
    requires AllClear(p, pending) && forall r :: r in p.session.seen.responses ==> |pending(r.app)| < TWO_64
    ensures forall i :: 0 <= i < |p.session.seen.responses| ==> Clear(p.session.seen.responses[i], pending)
  {
    hide Readable, Lookup, ContentLength;
  }
}
