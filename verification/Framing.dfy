/**
 Request framing does not depend on fragmentation: what the handler is given is what a
 sequential split of the client's whole stream gives, for every schedule of reads and writes.
 */
module Framing {
  import opened Text
  import opened MessageHeader
  import opened IoAdapter
  import opened Session
  import opened Phases
  import opened Processor
  import HeaderParser
  import HeaderSpec

  // ---- The sequential split of a stream ----

  /** How a stream ends: between or inside headers, inside a body, or where it is refused. */
  datatype StreamEnd = InHeader | InBody(header: RequestHeader, part: string) | Refused(result: FinalizeResult)

  /**
   What the handler objects to: its answers, in the order in which it is asked about each
   header that the server accepts and each complete body.
   */
  type Objections = nat -> Option<FinalizeResult>

  const NO_OBJECTIONS: Objections := (i: nat) => None

  /**
   The complete requests of a stream, how it ends after them, what lies behind a refusal, and
   how many questions have been put to the handler by then.
   */
  datatype Split = Split(requests: seq<Request>, end: StreamEnd, rest: string, asked: nat) {
    function After(first: seq<Request>): Split {
      Split(first + requests, end, rest, asked)
    }
  }

  /** The split for a handler that objects to nothing. */
  function SplitStream(s: string): Split {
    SplitObjected(s, NO_OBJECTIONS, 0)
  }

  /** The header as the whole of its text gives it, within the size limit; then its body. */
  function SplitObjected(s: string, v: Objections, n: nat): (r: Split)
    ensures |r.rest| <= |s| && (s != "" ==> |r.rest| < |s|)
    decreases |s|, 1
  {
    var window := s[..Min(MAX_HEADER_SIZE, |s|)];
    HeaderSpec.MachineReadsHeader(window);
    SplitAfter(HeaderSpec.ReadHeader(window), MAX_HEADER_SIZE, s, v, n)
  }

  function SplitAfter(o: HeaderSpec.Outcome, limit: nat, s: string, v: Objections, n: nat): (r: Split)
    requires o.consumed <= |s|
    requires o.ec != HeaderParser.MoreDataNeeded ==> o.consumed > 0
    ensures |r.rest| <= |s| && (s != "" && limit > 0 ==> |r.rest| < |s|)
    decreases |s|, 0
  {
    if o.ec == HeaderParser.Completed then SplitHeaderDone(o.header, s[o.consumed..], v, n)
    else if o.ec != HeaderParser.MoreDataNeeded then
      Split([], Refused(FinalizeResult(BAD_REQUEST, HeaderParser.ErrorText(o.ec))), s[o.consumed..], n)
    else if limit <= |s| then Split([], TOO_LARGE, s[limit..], n)
    else Split([], InHeader, "", n)
  }

  const TOO_LARGE := Refused(FinalizeResult(REQUEST_ENTITY_TOO_LARGE, HeaderParser.ErrorText(HeaderParser.MoreDataNeeded)))

  /** A complete header is refused, by the server or the handler, or starts a body of the announced length. */
  function SplitHeaderDone(header: RequestHeader, s: string, v: Objections, n: nat): (r: Split)
    ensures |r.rest| <= |s|
    decreases |s|, 3
  {
    match Refusal(header)
    case Some(result) => Split([], Refused(result), s, n)
    case None =>
      match v(n)
      case Some(result) => Split([], Refused(result), s, n + 1)
      case None => SplitBody(header, "", ContentLength(header.fields).value, s, v, n + 1)
  }

  /** `left` octets of body, of which `part` has been read before `s`; then the handler may refuse the request. */
  function SplitBody(header: RequestHeader, part: string, left: nat, s: string, v: Objections, n: nat): (r: Split)
    ensures |r.rest| <= |s|
    decreases |s|, 2
  {
    if |s| < left then Split([], InBody(header, part + s), "", n)
    else SplitBehind(s[left..], v, n).After([Request(header, part + s[..left])])
  }

  /** What comes behind a complete body. */
  function SplitBehind(s: string, v: Objections, n: nat): (r: Split)
    ensures |r.rest| <= |s|
    decreases |s|, 2, 0
  {
    match v(n)
    case Some(result) => Split([], Refused(result), s, n + 1)
    case None => SplitObjected(s, v, n + 1)
  }

  /** Why a complete header is refused before the handler is asked. */
  function Refusal(header: RequestHeader): (r: Option<FinalizeResult>)
    ensures r == None ==> ContentLength(header.fields).Some?
  {
    if header.line.version != HTTP_1_1 then
      Some(FinalizeResult(HTTP_VERSION_NOT_SUPPORTED, "This web server only supports HTTP version 1.1"))
    else if ContentLength(header.fields) == None then Some(FinalizeResult(BAD_REQUEST, "Bad content-length"))
    else None
  }

  /** The error that a stream with this end is answered with. */
  function VerdictOf(end: StreamEnd): FinalizeResult {
    match end
    case InHeader => FinalizeResult(BAD_REQUEST, HeaderParser.ErrorText(HeaderParser.MoreDataNeeded))
    case InBody(_, _) => FinalizeResult(BAD_REQUEST, "Client claims there is more data to read")
    case Refused(result) => result
  }

  // ---- The split from the middle of a phase ----

  /** The split of what is left of a stream once a parser has got as far as `parser`. */
  function SplitHeader(parser: HeaderParser.Parser, budget: nat, s: string, v: Objections, n: nat): Split {
    SplitAfter(HeaderSpec.Report(HeaderParser.Feed(parser, s[..Min(budget, |s|)])), budget, s, v, n)
  }

  lemma SplitStreamIsSplitHeader(s: string, v: Objections, n: nat)
    ensures SplitObjected(s, v, n) == SplitHeader(HeaderParser.FRESH, MAX_HEADER_SIZE, s, v, n)
  {
    hide HeaderSpec.ReadHeader, HeaderParser.Feed;
    HeaderSpec.MachineReadsHeader(s[..Min(MAX_HEADER_SIZE, |s|)]);
  }

  /** What can still be read from a connection: nothing once reading has been stopped. */
  function Available(c: Connection): string {
    if c.readDisabled then "" else c.unread
  }

  /** Everything that is still to be read. */
  function Pending<H>(p: State<H>): string {
    p.recv + Available(p.session.connection)
  }

  function SplitFrom<H>(p: State<H>, v: Objections): Split {
    var n := |p.session.seen.answers|;
    match p.phase
    case ReadHeader(parser, budget) => SplitHeader(parser, budget, Pending(p), v, n)
    case ReadBody(left) =>
      (match p.session.seen.current
       case None => Split([], InHeader, "", n)
       case Some(r) => SplitBody(r.header, r.body, left, Pending(p), v, n))
    case _ => SplitObjected(Pending(p), v, n)
  }

  /** A request is open exactly while its body is being read. */
  predicate Shaped<H>(p: State<H>) {
    p.phase.ReadBody? <==> p.session.seen.current.Some?
  }

  /** The requests seen so far, and the split of what is still to be read, make up `split`. */
  ghost predicate Framed<H>(split: Split, p: State<H>, v: Objections) {
    Shaped(p) && split == SplitFrom(p, v).After(p.session.seen.requests)
  }

  /** The handler has answered as `v` says. */
  ghost predicate Agrees<H>(v: Objections, seen: Transcript<H>) {
    forall i :: 0 <= i < |seen.answers| ==> v(i) == seen.answers[i]
  }

  // ---- The header phase ----

  function EndingCode(ending: Ending<OperationResult, HeaderParser.ErrorCode>): HeaderParser.ErrorCode {
    match ending
    case SinkStopped(ec) => ec
    case _ => HeaderParser.MoreDataNeeded
  }

  /** A transfer feeds the parser what it delivers, and ends with the code of the parser. */
  lemma {:induction false} HeaderDelivers(c: Connection, parser: HeaderParser.Parser, buffer: string, budget: nat)
    requires SourceInBounds(SOCKET_SOURCE) && SinkInBounds(HEADER_SINK)
    ensures var t := Pump(SOCKET_SOURCE, HEADER_SINK, BUFFER_SIZE, c, parser, buffer, budget);
            HeaderParser.Feed(parser, t.delivered) ==
            HeaderParser.FeedResult(t.sink, |t.delivered|, EndingCode(t.ending))
    decreases budget, buffer == []
  {
    hide Pump, HeaderParser.Feed, HeaderParser.Step;
    PumpOnce(SOCKET_SOURCE, HEADER_SINK, BUFFER_SIZE, c, parser, buffer, budget);
    FeedNothing(parser);
    if budget > 0 {
      if buffer == [] {
        var got := SOCKET_SOURCE.read(c, BUFFER_SIZE);
        if !(SOCKET_SOURCE.stops(got.ec) || got.bytes == []) {
          HeaderDelivers(got.state, parser, got.bytes, budget);
          Neutral(Pump(SOCKET_SOURCE, HEADER_SINK, BUFFER_SIZE, got.state, parser, got.bytes, budget).delivered);
        }
      } else {
        var span := buffer[..Min(budget, |buffer|)];
        var r := HeaderParser.Feed(parser, span);
        FeedTaken(parser, span);
        if r.ec == HeaderParser.MoreDataNeeded {
          assert span[..r.consumed] == span && r.consumed > 0;
          HeaderDelivers(c, r.parser, buffer[r.consumed..], budget - r.consumed);
          var t := Pump(SOCKET_SOURCE, HEADER_SINK, BUFFER_SIZE, c, r.parser, buffer[r.consumed..], budget - r.consumed);
          HeaderParser.FeedConcat(parser, span, t.delivered);
        }
      }
    }
  }

  lemma FeedNothing(parser: HeaderParser.Parser)
    ensures HeaderParser.Feed(parser, "") == HeaderParser.FeedResult(parser, 0, HeaderParser.MoreDataNeeded)
  {
  }

  /** What a parser has taken is enough to take it there again. */
  lemma {:induction false} FeedTaken(parser: HeaderParser.Parser, s: string)
    ensures var r := HeaderParser.Feed(parser, s);
            HeaderParser.Feed(parser, s[..r.consumed]) == r
    decreases s
  {
    hide HeaderParser.Step;
    if s != [] {
      match HeaderParser.Step(parser, s[0])
      case Stop(_, _) =>
      case Continue(q) =>
        FeedTaken(q, s[1..]);
        var n := HeaderParser.Feed(q, s[1..]).consumed;
        assert s[..n + 1][1..] == s[1..][..n];
    }
  }

  /** The split continues from the state that the transfer left the parser in. */
  lemma SplitHeaderContinues(parser: HeaderParser.Parser, q: HeaderParser.Parser, budget: nat, taken: string, rest: string, v: Objections, n: nat)
    requires |taken| <= budget
    requires HeaderParser.Feed(parser, taken) == HeaderParser.FeedResult(q, |taken|, HeaderParser.MoreDataNeeded)
    ensures SplitHeader(parser, budget, taken + rest, v, n) == SplitHeader(q, budget - |taken|, rest, v, n)
  {
    hide HeaderParser.Feed;
    var left := budget - |taken|;
    var s := taken + rest;
    var window := rest[..Min(left, |rest|)];
    assert s[..Min(budget, |s|)] == taken + window;
    HeaderParser.FeedConcat(parser, taken, window);
    var r := HeaderParser.Feed(q, window);
    assert s[|taken| + r.consumed..] == rest[r.consumed..];
    if budget <= |s| { assert s[budget..] == rest[left..]; }
  }

  /** The split ends the header where the transfer did, if the parser stopped it. */
  lemma SplitHeaderStops(parser: HeaderParser.Parser, r: HeaderParser.FeedResult, budget: nat, taken: string, rest: string, v: Objections, n: nat)
    requires taken != [] && |taken| <= budget && HeaderParser.Feed(parser, taken) == r
    requires r.consumed == |taken| && r.ec != HeaderParser.MoreDataNeeded
    ensures SplitHeader(parser, budget, taken + rest, v, n) ==
            if r.ec == HeaderParser.Completed then SplitHeaderDone(r.parser.header, rest, v, n)
            else Split([], Refused(FinalizeResult(BAD_REQUEST, HeaderParser.ErrorText(r.ec))), rest, n)
  {
    hide HeaderParser.Feed, SplitHeaderDone;
    var s := taken + rest;
    var window := rest[..Min(budget - |taken|, |rest|)];
    assert s[..Min(budget, |s|)] == taken + window;
    HeaderParser.FeedConcat(parser, taken, window);
    assert s[|taken|..] == rest;
  }

  // ---- The socket as a source ----

  /** A transfer that the socket ends leaves nothing behind, and nothing is available if it closed. */
  lemma {:induction false} SocketEnds<W(!new), F(!new)>(snk: Sink<W, F>, c: Connection, w: W, buffer: string, budget: nat)
    requires SourceInBounds(SOCKET_SOURCE) && SinkInBounds(snk)
    ensures var t := Pump(SOCKET_SOURCE, snk, BUFFER_SIZE, c, w, buffer, budget);
            t.source.readDisabled == c.readDisabled &&
            (c.readDisabled ==> t.source == c) &&
            (t.ending.SourceStopped? ==> t.buffer == []) &&
            (t.ending == SourceStopped(OperationResult.Completed) ==> Available(t.source) == [])
    decreases budget, buffer == []
  {
    if budget > 0 {
      if buffer == [] {
        var got := SOCKET_SOURCE.read(c, BUFFER_SIZE);
        if !(SOCKET_SOURCE.stops(got.ec) || got.bytes == []) {
          SocketEnds(snk, got.state, w, got.bytes, budget);
        }
      } else {
        var span := buffer[..Min(budget, |buffer|)];
        var took := snk.write(w, span, budget);
        if !(snk.stops(took.ec) || took.count == 0) {
          SocketEnds(snk, c, took.state, buffer[took.count..], budget - took.count);
        }
      }
    }
  }

  /** Nothing is lost between what was available and what is. */
  lemma AvailableGives<W(!new), F(!new)>(snk: Sink<W, F>, c: Connection, w: W, buffer: string, budget: nat)
    requires SourceInBounds(SOCKET_SOURCE) && SinkInBounds(snk)
    ensures var t := Pump(SOCKET_SOURCE, snk, BUFFER_SIZE, c, w, buffer, budget);
            buffer + Available(c) == t.delivered + (t.buffer + Available(t.source))
  {
    hide Pump;
    SocketGives(snk, c, w, buffer, budget);
    SocketEnds(snk, c, w, buffer, budget);
    Conservation(SOCKET_SOURCE, snk, BUFFER_SIZE, c, w, buffer, budget);
    var t := Pump(SOCKET_SOURCE, snk, BUFFER_SIZE, c, w, buffer, budget);
    if c.readDisabled {
      assert |t.fetched| == 0;
      Neutral(buffer);
      Neutral(t.buffer);
    }
  }

  // ---- A handler that refuses nothing ----

  /** No verdict is an error, and the body is only ever put off, never turned down. */
  ghost predicate NeverRefuses<H(!new)>(h: Handler<H>) {
    NeverObjects(h) && TakesContent(h)
  }

  /** No verdict on a header or on a complete body is an objection. */
  ghost predicate NeverObjects<H(!new)>(h: Handler<H>) {
    (forall app, header :: Objection(h.finalizeHeader(app, header).1) == None) &&
    (forall app, fields :: Objection(h.finalizeBody(app, fields).2) == None)
  }

  /** The body is only ever put off, never turned down. */
  ghost predicate TakesContent<H(!new)>(h: Handler<H>) {
    (forall app, span, budget :: budget > 0 ==>
       var took := h.processContent(app, span, budget);
       took.ec.isError || took.count == 0 ==> took.ec.canContinue && took.count < budget)
  }

  /** The error in `answer` is the one that is due by `split`, and is due now. */
  ghost predicate Due<H>(split: Split, q: State<H>, answer: StateResponse) {
    split.requests == q.session.seen.requests && VerdictOf(split.end) == answer.result && split.rest == Pending(q) &&
    split.asked == |q.session.seen.answers|
  }

  // ---- Each phase keeps the framing ----

  /** The split from where a transfer of header octets ended, and for what reason. */
  function SplitAtEnding(ending: Ending<OperationResult, HeaderParser.ErrorCode>,
                         parser: HeaderParser.Parser, budget: nat, rest: string, v: Objections, n: nat): Split {
    match ending
    case SourceStopped(ec) =>
      if ec == OperationResult.Completed then Split([], InHeader, "", n) else SplitHeader(parser, budget, rest, v, n)
    case SinkStopped(ec) =>
      if ec == HeaderParser.Completed then SplitHeaderDone(parser.header, rest, v, n)
      else if ec == HeaderParser.MoreDataNeeded then SplitHeader(parser, budget, rest, v, n)
      else Split([], Refused(FinalizeResult(BAD_REQUEST, HeaderParser.ErrorText(ec))), rest, n)
    case BudgetSpent => Split([], TOO_LARGE, rest, n)
  }

  lemma HeaderTransferSplits(c: Connection, parser: HeaderParser.Parser, buffer: string, budget: nat, v: Objections, n: nat)
    requires SourceInBounds(SOCKET_SOURCE) && SinkInBounds(HEADER_SINK)
    ensures var t := Pump(SOCKET_SOURCE, HEADER_SINK, BUFFER_SIZE, c, parser, buffer, budget);
            SplitHeader(parser, budget, buffer + Available(c), v, n) ==
            SplitAtEnding(t.ending, t.sink, t.budget, t.buffer + Available(t.source), v, n)
  {
    hide HeaderParser.Feed, SplitHeader, SplitHeaderDone, Pump;
    AvailableGives(HEADER_SINK, c, parser, buffer, budget);
    SocketEnds(HEADER_SINK, c, parser, buffer, budget);
    Conservation(SOCKET_SOURCE, HEADER_SINK, BUFFER_SIZE, c, parser, buffer, budget);
    HeaderDelivers(c, parser, buffer, budget);
    var t := Pump(SOCKET_SOURCE, HEADER_SINK, BUFFER_SIZE, c, parser, buffer, budget);
    var rest := t.buffer + Available(t.source);
    if EndingCode(t.ending) == HeaderParser.MoreDataNeeded {
      SplitHeaderContinues(parser, t.sink, budget, t.delivered, rest, v, n);
      if t.budget == 0 || rest == [] { SplitHeaderAtEnd(t.sink, t.budget, rest, v, n); }
    } else {
      FeedNothing(parser);
      SplitHeaderStops(parser, HeaderParser.Feed(parser, t.delivered), budget, t.delivered, rest, v, n);
    }
  }

  /** At the end of the budget or of the stream, the split has nothing more to look at. */
  lemma SplitHeaderAtEnd(parser: HeaderParser.Parser, budget: nat, rest: string, v: Objections, n: nat)
    requires budget == 0 || rest == []
    ensures SplitHeader(parser, budget, rest, v, n) == if budget == 0 then Split([], TOO_LARGE, rest, n) else Split([], InHeader, "", n)
  {
    assert rest[..Min(budget, |rest|)] == "";
    FeedNothing(parser);
  }

  /** The verdict on a complete header: of the server first, and then of the handler. */
  lemma HeaderVerdictKeepsFraming<H(!new)>(h: Handler<H>, s: SessionState<H>, header: RequestHeader)
    ensures var (s', answer) := HeaderVerdict(h, s, header);
            s'.connection == s.connection &&
            match Refusal(header)
            case Some(result) => answer == StateResponse(ClientErrorDetected, result) && s'.seen == s.seen
            case None =>
              var res := h.finalizeHeader(s.app, header).1;
              s'.contentLength == ContentLength(header.fields).value &&
              if 400 <= res.httpStatus <= 598 then
                answer == StateResponse(ClientErrorDetected, res) && s'.seen == s.seen.(answers := s.seen.answers + [Some(res)])
              else
                answer.status == PhaseCompleted && s'.seen == s.seen.(answers := s.seen.answers + [None]).Open(header)
  {
  }

  /** The framing between the end of the header and the start of the body phase. */
  ghost predicate FramedHeader<H>(split: Split, p: State<H>, v: Objections) {
    p.session.seen.current.Some? &&
    var r := p.session.seen.current.value;
    split == SplitBody(r.header, r.body, p.session.contentLength, Pending(p), v, |p.session.seen.answers|).After(p.session.seen.requests)
  }

  /** What a header phase that answers as `answer` leaves behind. */
  ghost predicate HeaderFramed<H(!new)>(split: Split, q: State<H>, answer: StateResponse, v: Objections) {
    match answer.status
    case PhaseCompleted => FramedHeader(split, q, v)
    case ClientErrorDetected => Due(split, q, answer)
    case _ => Framed(split, q, v)
  }

  lemma HeaderOutcomeKeepsFraming<H(!new)>(h: Handler<H>, split: Split, q: State<H>, parser: HeaderParser.Parser, budget: nat,
                                           ending: Ending<OperationResult, HeaderParser.ErrorCode>, o: Outcome<H>, v: Objections)
    requires q.session.seen.current == None
    requires split == SplitAtEnding(ending, parser, budget, Pending(q), v, |q.session.seen.answers|).After(q.session.seen.requests)
    requires o == HeaderOutcome(h, parser, budget, q.session, q.recv, ending) && Agrees(v, o.session.seen)
    requires ending == SourceStopped(OperationResult.Completed) ==> Pending(q) == []
    ensures HeaderFramed(split, q.(phase := o.phase, session := o.session, recv := o.buffer), o.answer, v)
  {
    hide SplitObjected, SplitBody, SplitHeader, HeaderVerdict, HeaderParser.ErrorText, Refusal;
    NoRequests(q.session.seen.requests);
    HeaderVerdictKeepsFraming(h, q.session, parser.header);
    if |o.session.seen.answers| > |q.session.seen.answers| { assert v(|q.session.seen.answers|) == o.session.seen.answers[|q.session.seen.answers|]; }
  }

  lemma HeaderCallKeepsFraming<H(!new)>(h: Handler<H>, split: Split, p: State<H>, v: Objections)
    requires InBounds(h) && Framed(split, p, v) && p.phase.ReadHeader? && Agrees(v, CallPhase(h, p).0.session.seen)
    ensures HeaderFramed(split, CallPhase(h, p).0, CallPhase(h, p).1, v)
  {
    hide HeaderParser.Feed, SplitObjected, SplitBody, SplitHeader, Pump, HeaderFramed, HeaderOutcome, SplitAtEnding, Agrees;
    var ReadHeader(parser, budget) := p.phase;
    var c := p.session.connection;
    HeaderCallbacksInBounds();
    SocketEnds(HEADER_SINK, c, parser, p.recv, budget);
    HeaderTransferSplits(c, parser, p.recv, budget, v, |p.session.seen.answers|);
    var t := Pump(SOCKET_SOURCE, HEADER_SINK, BUFFER_SIZE, c, parser, p.recv, budget);
    var q := p.(session := p.session.(connection := t.source), recv := t.buffer);
    HeaderOutcomeKeepsFraming(h, split, q, t.sink, t.budget, t.ending, ReadHeaderReady(h, parser, budget, p.session, p.recv), v);
  }

  lemma NoRequests(requests: seq<Request>)
    ensures requests + [] == requests
  {
  }

  // ---- The body phase ----

  /** What the handler takes is what the transfer delivers. */
  lemma {:induction false} BodyDelivers<H(!new)>(h: Handler<H>, c: Connection, l: Listener<H>, buffer: string, budget: nat)
    requires InBounds(h) && SourceInBounds(SOCKET_SOURCE) && SinkInBounds(BodySink(h))
    ensures var t := Pump(SOCKET_SOURCE, BodySink(h), BUFFER_SIZE, c, l, buffer, budget);
            t.sink.seen == l.seen.Extend(t.delivered)
    decreases budget, buffer == []
  {
    hide Pump, Transcript.Extend, InBounds;
    PumpOnce(SOCKET_SOURCE, BodySink(h), BUFFER_SIZE, c, l, buffer, budget);
    ExtendByNothing(l.seen);
    if budget > 0 {
      if buffer == [] {
        var got := SOCKET_SOURCE.read(c, BUFFER_SIZE);
        if !(SOCKET_SOURCE.stops(got.ec) || got.bytes == []) {
          BodyDelivers(h, got.state, l, got.bytes, budget);
          Neutral(Pump(SOCKET_SOURCE, BodySink(h), BUFFER_SIZE, got.state, l, got.bytes, budget).delivered);
        }
      } else {
        var span := buffer[..Min(budget, |buffer|)];
        var took := h.processContent(l.app, span, budget);
        var m := BodySink(h).write(l, span, budget).state;
        assert took.count <= |span| && m == Listener(took.state, l.seen.Extend(span[..took.count]));
        if !(took.ec.isError || took.count == 0) {
          BodyDelivers(h, c, m, buffer[took.count..], budget - took.count);
          var t := Pump(SOCKET_SOURCE, BodySink(h), BUFFER_SIZE, c, m, buffer[took.count..], budget - took.count);
          ExtendTwice(l.seen, span[..took.count], t.delivered);
        }
      }
    }
  }

  /** A handler that refuses nothing only ever stops a body transfer to have it resumed. */
  lemma {:induction false} BodyOnlyPutOff<H(!new)>(h: Handler<H>, c: Connection, l: Listener<H>, buffer: string, budget: nat)
    requires InBounds(h) && SourceInBounds(SOCKET_SOURCE) && SinkInBounds(BodySink(h)) && TakesContent(h)
    ensures var t := Pump(SOCKET_SOURCE, BodySink(h), BUFFER_SIZE, c, l, buffer, budget);
            t.ending.SinkStopped? ==> t.ending.sinkCode.canContinue && t.budget > 0
    decreases budget, buffer == []
  {
    hide Pump;
    PumpOnce(SOCKET_SOURCE, BodySink(h), BUFFER_SIZE, c, l, buffer, budget);
    if budget > 0 {
      if buffer == [] {
        var got := SOCKET_SOURCE.read(c, BUFFER_SIZE);
        if !(SOCKET_SOURCE.stops(got.ec) || got.bytes == []) {
          BodyOnlyPutOff(h, got.state, l, got.bytes, budget);
        }
      } else {
        var span := buffer[..Min(budget, |buffer|)];
        var took := h.processContent(l.app, span, budget);
        if !(took.ec.isError || took.count == 0) {
          BodyOnlyPutOff(h, c, BodySink(h).write(l, span, budget).state, buffer[took.count..], budget - took.count);
        }
      }
    }
  }

  lemma ExtendByNothing<H>(seen: Transcript<H>)
    ensures seen.Extend("") == seen
  {
    if seen.current.Some? { assert seen.current.value.body + "" == seen.current.value.body; }
  }

  lemma ExtendTwice<H>(seen: Transcript<H>, a: string, b: string)
    ensures seen.Extend(a).Extend(b) == seen.Extend(a + b)
  {
    if seen.current.Some? { Associates(seen.current.value.body, a, b); }
  }

  lemma SplitBodyContinues(header: RequestHeader, part: string, left: nat, taken: string, rest: string, v: Objections, n: nat)
    requires |taken| <= left
    ensures SplitBody(header, part, left, taken + rest, v, n) == SplitBody(header, part + taken, left - |taken|, rest, v, n)
  {
    hide SplitBehind;
    var s := taken + rest;
    Associates(part, taken, rest);
    if left <= |s| {
      var k := left - |taken|;
      assert s[left..] == rest[k..];
      assert s[..left] == taken + rest[..k];
      Associates(part, taken, rest[..k]);
    }
  }

  /** What a body phase that answers as `answer` leaves behind. */
  ghost predicate BodyFramed<H(!new)>(h: Handler<H>, split: Split, q: State<H>, answer: StateResponse, v: Objections) {
    match answer.status
    case PhaseCompleted =>
      q.session.seen.current == None &&
      split == SplitObjected(Pending(q), v, |q.session.seen.answers|).After(q.session.seen.requests)
    case ClientErrorDetected => TakesContent(h) ==> Due(split, q, answer)
    case _ => Framed(split, q, v)
  }

  /** The verdict of the handler on a complete body. */
  lemma BodyVerdict<H(!new)>(h: Handler<H>, s: SessionState<H>)
    requires s.seen.current.Some?
    ensures var (s', answer) := BodyCompleted(h, s);
            var res := h.finalizeBody(s.app, []).2;
            s'.connection == s.connection &&
            s'.seen.requests == s.seen.requests + [s.seen.current.value] && s'.seen.current == None &&
            if 400 <= res.httpStatus <= 598 then
              answer == StateResponse(ClientErrorDetected, res) && s'.seen.answers == s.seen.answers + [Some(res)]
            else
              answer.status == PhaseCompleted && s'.seen.answers == s.seen.answers + [None]
  {
  }

  lemma BodyOutcomeKeepsFraming<H(!new)>(h: Handler<H>, split: Split, q: State<H>, left: nat,
                                         ending: Ending<OperationResult, HandlerCode>, o: Outcome<H>, v: Objections)
    requires q.session.seen.current.Some?
    requires var r := q.session.seen.current.value;
             split == SplitBody(r.header, r.body, left, Pending(q), v, |q.session.seen.answers|).After(q.session.seen.requests)
    requires o == BodyOutcome(h, left, q.session, q.recv, ending) && Agrees(v, o.session.seen)
    requires ending == SourceStopped(OperationResult.Completed) ==> Pending(q) == []
    requires ending.SourceStopped? ==> left > 0
    requires ending.BudgetSpent? ==> left == 0
    requires TakesContent(h) && ending.SinkStopped? ==> ending.sinkCode.canContinue && left > 0
    ensures BodyFramed(h, split, q.(phase := o.phase, session := o.session, recv := o.buffer), o.answer, v)
  {
    hide SplitObjected, BodyCompleted, TakesContent;
    var seen := q.session.seen;
    var r := seen.current.value;
    NoRequests(seen.requests);
    if ending.BudgetSpent? {
      var s := Pending(q);
      BodyVerdict(h, q.session);
      assert v(|seen.answers|) == o.session.seen.answers[|seen.answers|];
      assert s[..0] == "" && s[0..] == s;
      Neutral(r.body);
      assert r.(body := r.body + "") == r;
      AfterTwice(seen.requests, [r], SplitBehind(s, v, |seen.answers|));
      NoRequests(seen.requests + [r]);
    }
  }

  lemma AfterTwice(a: seq<Request>, b: seq<Request>, split: Split)
    ensures split.After(b).After(a) == split.After(a + b)
  {
    assert a + (b + split.requests) == a + b + split.requests;
  }

  lemma {:induction false} BodyCallKeepsFraming<H(!new)>(h: Handler<H>, split: Split, p: State<H>, v: Objections)
    requires InBounds(h) && Framed(split, p, v) && p.phase.ReadBody? && Agrees(v, CallPhase(h, p).0.session.seen)
    ensures BodyFramed(h, split, CallPhase(h, p).0, CallPhase(h, p).1, v)
  {
    hide SplitObjected, SplitBody, Pump, BodyFramed, BodyOutcome, TakesContent, Agrees;
    var left, c, l := p.phase.left, p.session.connection, Listener(p.session.app, p.session.seen);
    BodyCallbacksInBounds(h);
    SocketEnds(BodySink(h), c, l, p.recv, left);
    AvailableGives(BodySink(h), c, l, p.recv, left);
    Conservation(SOCKET_SOURCE, BodySink(h), BUFFER_SIZE, c, l, p.recv, left);
    BodyDelivers(h, c, l, p.recv, left);
    if TakesContent(h) { BodyOnlyPutOff(h, c, l, p.recv, left); }
    var t := Pump(SOCKET_SOURCE, BodySink(h), BUFFER_SIZE, c, l, p.recv, left);
    var r := p.session.seen.current.value;
    SplitBodyContinues(r.header, r.body, left, t.delivered, t.buffer + Available(t.source), v, |p.session.seen.answers|);
    var q := p.(session := p.session.(connection := t.source, app := t.sink.app, seen := t.sink.seen), recv := t.buffer);
    BodyOutcomeKeepsFraming(h, split, q, t.budget, t.ending, ReadBodyReady(h, left, p.session, p.recv), v);
  }
}
