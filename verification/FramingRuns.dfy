/** The framing of requests over whole runs. */
module FramingRuns {
  import opened Text
  import opened MessageHeader
  import opened IoAdapter
  import opened Session
  import opened Phases
  import opened Processor
  import opened Framing
  import HeaderParser
  import HeaderSpec

  // ---- The transcript only grows ----

  predicate Grows<H(==)>(before: Transcript<H>, after: Transcript<H>) {
    before.requests <= after.requests && before.errors <= after.errors && before.leftovers <= after.leftovers &&
    before.answers <= after.answers && before.responses <= after.responses
  }

  /** What a call leaves of the transcript: it adds at most a request, and reports no error by itself. */
  predicate Extends<H(==)>(before: Transcript<H>, after: Transcript<H>) {
    Grows(before, after) && after.errors == before.errors && after.leftovers == before.leftovers &&
    after.responses == before.responses
  }

  lemma HeaderCallExtends<H(!new)>(h: Handler<H>, p: State<H>)
    requires InBounds(h) && p.phase.ReadHeader?
    ensures Extends(p.session.seen, CallPhase(h, p).0.session.seen)
  {
    hide Pump, HeaderOutcome, Extends;
    HeaderCallbacksInBounds();
    var ReadHeader(parser, budget) := p.phase;
    var t := Pump(SOCKET_SOURCE, HEADER_SINK, BUFFER_SIZE, p.session.connection, parser, p.recv, budget);
    HeaderOutcomeExtends(h, t.sink, t.budget, p.session.(connection := t.source), t.buffer, t.ending);
  }

  lemma HeaderOutcomeExtends<H(!new)>(h: Handler<H>, parser: HeaderParser.Parser, budget: nat, session: SessionState<H>,
                                      buffer: string, ending: Ending<OperationResult, HeaderParser.ErrorCode>)
    ensures Extends(session.seen, HeaderOutcome(h, parser, budget, session, buffer, ending).session.seen)
  {
    hide HeaderParser.ErrorText, ContentLength;
  }

  lemma BodyCallExtends<H(!new)>(h: Handler<H>, p: State<H>)
    requires InBounds(h) && p.phase.ReadBody?
    ensures Extends(p.session.seen, CallPhase(h, p).0.session.seen)
  {
    hide Pump;
    BodyCallbacksInBounds(h);
    BodyDelivers(h, p.session.connection, Listener(p.session.app, p.session.seen), p.recv, p.phase.left);
  }

  lemma WaitCallExtends<H(!new)>(h: Handler<H>, p: State<H>)
    requires InBounds(h) && p.phase.WaitForData?
    ensures Extends(p.session.seen, CallPhase(h, p).0.session.seen)
  {
  }

  lemma CallGrows<H(!new)>(h: Handler<H>, p: State<H>)
    requires InBounds(h)
    ensures Extends(p.session.seen, CallPhase(h, p).0.session.seen)
  {
    hide CallPhase;
    match p.phase
    case ReadHeader(_, _) => HeaderCallExtends(h, p);
    case ReadBody(_) => BodyCallExtends(h, p);
    case WriteHeader(_) => WritingKeepsInput(h, p);
    case WriteBody(_) => WritingKeepsInput(h, p);
    case WaitForData => WaitCallExtends(h, p);
  }

  lemma RoundGrows<H(!new)>(h: Handler<H>, p: State<H>)
    requires InBounds(h)
    ensures Grows(p.session.seen, Advance(h, p).next.session.seen)
  {
    hide CallPhase;
    CallGrows(h, p);
  }

  // ---- Rounds ----

  lemma WritingKeepsFraming<H(!new)>(h: Handler<H>, split: Split, p: State<H>, v: Objections)
    requires InBounds(h) && Framed(split, p, v) && DirectionOf(p.phase) == Output
    ensures RoundFramed(h, split, p, Advance(h, p).next, v)
  {
    hide SplitObjected, Pump;
    WritingKeepsInput(h, p);
    var (q, answer) := CallPhase(h, p);
    CallUsesInput(h, p);
    assert answer.status != ClientErrorDetected;
    assert Pending(q) == Pending(p);
  }

  lemma WaitCallKeepsPending<H(!new)>(h: Handler<H>, p: State<H>)
    requires InBounds(h) && p.phase.WaitForData?
    ensures var (q, answer) := CallPhase(h, p);
            q == p.(session := q.session, recv := q.recv) && q.session.seen == p.session.seen && Pending(q) == Pending(p) &&
            q.session.connection.readDisabled == p.session.connection.readDisabled && answer.status != ClientErrorDetected
  {
    ReadGives(p.session.connection, BUFFER_SIZE);
    Neutral(p.recv);
  }

  lemma WaitingKeepsFraming<H(!new)>(h: Handler<H>, split: Split, p: State<H>, v: Objections)
    requires InBounds(h) && Framed(split, p, v) && p.phase.WaitForData?
    ensures RoundFramed(h, split, p, Advance(h, p).next, v)
  {
    hide CallPhase, Pending, SplitObjected, SplitHeader, TakesContent, InBounds;
    WaitCallKeepsPending(h, p);
    SplitStreamIsSplitHeader(Pending(p), v, |p.session.seen.answers|);
    SamePending(CallPhase(h, p).0, Advance(h, p).next);
  }

  lemma SamePending<H>(p: State<H>, q: State<H>)
    requires q.recv == p.recv && q.session.connection == p.session.connection
    ensures Pending(q) == Pending(p)
  {
  }

  /** Giving up on the client at the end of `split`: the verdict is reported, and the buffer kept. */
  ghost predicate GivenUp<H>(split: Split, p: State<H>, q: State<H>) {
    var seen, after := p.session.seen, q.session.seen;
    after.requests == split.requests && after.errors == seen.errors + [VerdictOf(split.end)] &&
    after.leftovers == seen.leftovers + [q.recv] && q.recv <= split.rest && split.asked == |after.answers| &&
    (p.session.connection.readDisabled ==> q.recv == split.rest)
  }

  /** What a round makes of a framed state: framing by the same split, or its end. */
  ghost predicate RoundFramed<H(!new)>(h: Handler<H>, split: Split, p: State<H>, q: State<H>, v: Objections) {
    Shaped(q) &&
    if |q.session.seen.errors| == |p.session.seen.errors| then
      Framed(split, q, v) && q.session.seen.errors == p.session.seen.errors &&
      q.session.seen.leftovers == p.session.seen.leftovers &&
      q.session.connection.readDisabled == p.session.connection.readDisabled
    else
      q.session.connection.readDisabled && q.phase.WriteHeader? && (TakesContent(h) ==> GivenUp(split, p, q))
  }

  /** A round leaves the answers of the handler as the call of the phase does. */
  lemma ConcludeKeepsAnswers<H(!new)>(h: Handler<H>, p: State<H>)
    requires InBounds(h)
    ensures Advance(h, p).next.session.seen.answers == CallPhase(h, p).0.session.seen.answers
  {
    hide CallPhase;
  }

  /** How the round goes on from the answer of the header phase. */
  lemma HeaderAnswerKeepsFraming<H(!new)>(h: Handler<H>, split: Split, p: State<H>, q: State<H>, answer: StateResponse, v: Objections)
    requires q.phase.ReadHeader? && Extends(p.session.seen, q.session.seen) && HeaderFramed(split, q, answer, v)
    requires q.session.connection.readDisabled == p.session.connection.readDisabled
    ensures RoundFramed(h, split, p, Conclude(h, q, answer).next, v)
  {
    hide SplitObjected, SplitHeader, SplitBody, TakesContent, Serialize;
  }

  lemma HeaderRoundKeepsFraming<H(!new)>(h: Handler<H>, split: Split, p: State<H>, v: Objections)
    requires InBounds(h) && Framed(split, p, v) && Agrees(v, Advance(h, p).next.session.seen) && p.phase.ReadHeader?
    ensures RoundFramed(h, split, p, Advance(h, p).next, v)
  {
    hide CallPhase, Framed, RoundFramed, HeaderFramed, Extends, InBounds, Conclude;
    var (q, answer) := CallPhase(h, p);
    CallGrows(h, p);
    CallUsesInput(h, p);
    CallKeepsReading(h, p);
    ConcludeKeepsAnswers(h, p);
    HeaderCallKeepsFraming(h, split, p, v);
    HeaderAnswerKeepsFraming(h, split, p, q, answer, v);
  }

  /** How the round goes on from the answer of the body phase. */
  lemma BodyAnswerKeepsFraming<H(!new)>(h: Handler<H>, split: Split, p: State<H>, q: State<H>, answer: StateResponse, v: Objections)
    requires q.phase.ReadBody? && Extends(p.session.seen, q.session.seen) && BodyFramed(h, split, q, answer, v)
    requires q.session.connection.readDisabled == p.session.connection.readDisabled
    ensures RoundFramed(h, split, p, Conclude(h, q, answer).next, v)
  {
    hide SplitObjected, SplitHeader, SplitBody, TakesContent, Serialize;
  }

  lemma BodyRoundKeepsFraming<H(!new)>(h: Handler<H>, split: Split, p: State<H>, v: Objections)
    requires InBounds(h) && Framed(split, p, v) && Agrees(v, Advance(h, p).next.session.seen) && p.phase.ReadBody?
    ensures RoundFramed(h, split, p, Advance(h, p).next, v)
  {
    hide CallPhase, Framed, RoundFramed, BodyFramed, Extends, InBounds, Conclude;
    var (q, answer) := CallPhase(h, p);
    CallGrows(h, p);
    CallUsesInput(h, p);
    CallKeepsReading(h, p);
    ConcludeKeepsAnswers(h, p);
    BodyCallKeepsFraming(h, split, p, v);
    BodyAnswerKeepsFraming(h, split, p, q, answer, v);
  }

  lemma RoundKeepsFraming<H(!new)>(h: Handler<H>, split: Split, p: State<H>, v: Objections)
    requires InBounds(h) && Framed(split, p, v) && Agrees(v, Advance(h, p).next.session.seen)
    ensures RoundFramed(h, split, p, Advance(h, p).next, v)
  {
    hide Advance, Framed, RoundFramed, Agrees, InBounds;
    match p.phase
    case ReadHeader(_, _) => HeaderRoundKeepsFraming(h, split, p, v);
    case ReadBody(_) => BodyRoundKeepsFraming(h, split, p, v);
    case WriteHeader(_) => WritingKeepsFraming(h, split, p, v);
    case WriteBody(_) => WritingKeepsFraming(h, split, p, v);
    case WaitForData => WaitingKeepsFraming(h, split, p, v);
  }

  /** No call of a phase stops the reading. */
  lemma CallKeepsReading<H(!new)>(h: Handler<H>, p: State<H>)
    requires InBounds(h)
    ensures CallPhase(h, p).0.session.connection.readDisabled == p.session.connection.readDisabled
  {
    hide Pump;
    var c := p.session.connection;
    match p.phase
    case ReadHeader(parser, budget) =>
      HeaderCallbacksInBounds();
      SocketEnds(HEADER_SINK, c, parser, p.recv, budget);
    case ReadBody(left) =>
      BodyCallbacksInBounds(h);
      SocketEnds(BodySink(h), c, Listener(p.session.app, p.session.seen), p.recv, left);
    case WriteHeader(_) => WritingKeepsInput(h, p);
    case WriteBody(_) => WritingKeepsInput(h, p);
    case WaitForData =>
  }

  // ---- Runs of any handler, up to the first client error or time-out ----

  /** While reading has not been stopped, the requests seen are the start of the split. */
  ghost predicate FramedWhileReading<H>(stream: string, p: State<H>, v: Objections) {
    Agrees(v, p.session.seen) && !p.session.connection.readDisabled ==> Framed(SplitObjected(stream, v, 0), p, v)
  }

  /** Once reading is disabled a call can only use up what is in the receive buffer. */
  lemma StoppedCall<H(!new)>(h: Handler<H>, p: State<H>)
    requires InBounds(h) && p.session.connection.readDisabled
    ensures var q := CallPhase(h, p).0;
            q.session.connection.readDisabled && q.session.connection.unread == p.session.connection.unread &&
            q.session.connection.readCount == p.session.connection.readCount && |q.recv| <= |p.recv|
  {
    hide Pump;
    var c := p.session.connection;
    match p.phase
    case ReadHeader(parser, budget) =>
      HeaderCallbacksInBounds();
      SocketEnds(HEADER_SINK, c, parser, p.recv, budget);
      SocketGives(HEADER_SINK, c, parser, p.recv, budget);
    case ReadBody(left) =>
      BodyCallbacksInBounds(h);
      var l := Listener(p.session.app, p.session.seen);
      SocketEnds(BodySink(h), c, l, p.recv, left);
      SocketGives(BodySink(h), c, l, p.recv, left);
    case WriteHeader(_) => WritingKeepsInput(h, p);
    case WriteBody(_) => WritingKeepsInput(h, p);
    case WaitForData =>
  }

  lemma StoppedStaysStopped<H(!new)>(h: Handler<H>, p: State<H>)
    requires InBounds(h) && p.session.connection.readDisabled
    ensures var q := Advance(h, p).next;
            q.session.connection.readDisabled && q.session.connection.unread == p.session.connection.unread &&
            q.session.connection.readCount == p.session.connection.readCount && |q.recv| <= |p.recv|
  {
    hide CallPhase;
    StoppedCall(h, p);
  }

  lemma StartIsFramed<H>(connection: Connection, app: H, v: Objections)
    ensures Framed(SplitObjected(Available(connection), v, 0), Start(connection, app), v)
  {
    hide SplitObjected, SplitHeader;
    SplitStreamIsSplitHeader(Available(connection), v, 0);
    Neutral(Available(connection));
    NoneBefore(SplitObjected(Available(connection), v, 0));
  }

  lemma NoneBefore(split: Split)
    ensures split.After([]) == split
  {
    assert [] + split.requests == split.requests;
  }

  lemma AgreedBefore<H>(v: Objections, before: Transcript<H>, after: Transcript<H>)
    requires before.answers <= after.answers && Agrees(v, after)
    ensures Agrees(v, before)
  {
    assert forall i :: 0 <= i < |before.answers| ==> before.answers[i] == after.answers[i];
  }

  /**
   For every handler, whatever it objects to, and every stream, schedule and run: until reading is
   stopped by a client error or a time-out, the requests handed over so far, followed by the
   split of what is still to be read from the current state, are the split of the whole stream.
   */
  lemma RequestsFollowTheSplit<H(!new)>(h: Handler<H>, connection: Connection, app: H, events: seq<Event>, v: Objections)
    requires InBounds(h) && Agrees(v, Run(h, Start(connection, app), events).session.seen)
    ensures var p := Run(h, Start(connection, app), events);
            var split := SplitObjected(connection.unread, v, 0);
            !p.session.connection.readDisabled ==> Framed(split, p, v) && p.session.seen.requests <= split.requests
  {
    hide Framed, SplitObjected, Agrees, Advance;
    var stream := connection.unread;
    var inv := (q: State<H>) => FramedWhileReading(stream, q, v);
    forall q | inv(q) ensures inv(Advance(h, q).next) { RoundKeepsFramedWhileReading(h, stream, q, v); }
    if !connection.readDisabled { StartIsFramed(connection, app, v); }
    RunKeeps(h, Start(connection, app), events, inv);
    var p := Run(h, Start(connection, app), events);
    if !p.session.connection.readDisabled { FramedRequestsArePrefix(SplitObjected(stream, v, 0), p, v); }
  }

  lemma RoundKeepsFramedWhileReading<H(!new)>(h: Handler<H>, stream: string, p: State<H>, v: Objections)
    requires InBounds(h) && FramedWhileReading(stream, p, v)
    ensures FramedWhileReading(stream, Advance(h, p).next, v)
  {
    hide Framed, SplitObjected, Agrees, Advance;
    var q := Advance(h, p).next;
    RoundGrows(h, p);
    if p.session.connection.readDisabled {
      StoppedStaysStopped(h, p);
    } else if Agrees(v, q.session.seen) {
      AgreedBefore(v, p.session.seen, q.session.seen);
      RoundKeepsFraming(h, SplitObjected(stream, v, 0), p, v);
    }
  }

  lemma FramedRequestsArePrefix<H>(split: Split, p: State<H>, v: Objections)
    requires Framed(split, p, v)
    ensures p.session.seen.requests <= split.requests
  {
    hide SplitObjected;
  }

  /** If nothing is left to read between two requests, all the requests were handed over. */
  lemma CleanEndHasSeenAll<H>(split: Split, p: State<H>, v: Objections)
    requires Framed(split, p, v) && p.phase.WaitForData? && Pending(p) == []
    ensures split == Split(p.session.seen.requests, InHeader, "", |p.session.seen.answers|)
  {
    hide SplitObjected, SplitHeader;
    NothingToSplit(v, |p.session.seen.answers|);
    NoRequests(p.session.seen.requests);
  }

  lemma NothingToSplit(v: Objections, n: nat)
    ensures SplitObjected("", v, n) == Split([], InHeader, "", n)
  {
    hide SplitObjected, SplitHeader;
    SplitStreamIsSplitHeader("", v, n);
    SplitHeaderAtEnd(HeaderParser.FRESH, MAX_HEADER_SIZE, "", v, n);
  }

  /**
   And the server does not close earlier: if it ends the session while it waits for the next
   request, and no read has failed, there is nothing left to read, and all was handed over.
   */
  lemma ClosesOnlyAtTheEnd<H(!new)>(h: Handler<H>, split: Split, p: State<H>, v: Objections)
    requires InBounds(h) && Framed(split, p, v) && p.phase.WaitForData?
    requires var c := p.session.connection; c.readDisabled || !c.readEvents(c.readCount).ReadFails?
    ensures Advance(h, p).Done? && Advance(h, p).status != ProcessorMoreDataNeeded ==>
              Advance(h, p).status == ProcessorCompleted && Framed(split, Advance(h, p).next, v) &&
              split == Split(Advance(h, p).next.session.seen.requests, InHeader, "", |Advance(h, p).next.session.seen.answers|)
  {
    hide SplitObjected, SplitHeader;
    var q := Advance(h, p).next;
    if Advance(h, p).Done? && Advance(h, p).status != ProcessorMoreDataNeeded {
      assert Pending(q) == [];
      WaitingKeepsFraming(h, split, p, v);
      CleanEndHasSeenAll(split, q, v);
    }
  }

  // ---- Requests after an error ----

  /**
   The requests that a handler with these objections is given of a text that is all there is:
   those of its split, and then those of what lies behind the refusal, as if it were a text of
   its own.
   */
  function ServedObjected(s: string, v: Objections, n: nat): seq<Request>
    decreases |s|
  {
    if s == "" then []
    else
      var split := SplitObjected(s, v, n);
      split.requests + ServedObjected(split.rest, v, split.asked)
  }

  /** The same for a handler that objects to nothing. */
  function Served(s: string): seq<Request> {
    ServedObjected(s, NO_OBJECTIONS, 0)
  }

  lemma ServedSplit(s: string, v: Objections, n: nat)
    ensures var split := SplitObjected(s, v, n);
            ServedObjected(s, v, n) == split.requests + ServedObjected(split.rest, v, split.asked)
  {
    hide SplitObjected;
    if s == "" { NothingToSplit(v, n); }
  }

  /** The requests that are still to come once reading has been stopped. */
  function ServedFrom<H>(p: State<H>, v: Objections): seq<Request> {
    var split := SplitFrom(p, v);
    split.requests + ServedObjected(split.rest, v, split.asked)
  }

  /** After the stop, each round hands over the next of the requests that are still to come. */
  lemma RoundServes<H(!new)>(h: Handler<H>, p: State<H>, v: Objections)
    requires InBounds(h) && TakesContent(h) && Shaped(p) && p.session.connection.readDisabled
    requires Agrees(v, Advance(h, p).next.session.seen)
    ensures var q := Advance(h, p).next;
            Shaped(q) && q.session.connection.readDisabled &&
            q.session.seen.requests + ServedFrom(q, v) == p.session.seen.requests + ServedFrom(p, v)
  {
    hide SplitObjected, SplitFrom, TakesContent, Advance, ServedObjected, Agrees;
    var q := Advance(h, p).next;
    var split := SplitFrom(p, v).After(p.session.seen.requests);
    RoundKeepsFraming(h, split, p, v);
    ServedInAll(p.session.seen.requests, SplitFrom(p, v), v);
    if |q.session.seen.errors| == |p.session.seen.errors| {
      ServedInAll(q.session.seen.requests, SplitFrom(q, v), v);
    } else {
      StopServes(q, v);
    }
  }

  lemma ServedInAll(requests: seq<Request>, split: Split, v: Objections)
    ensures requests + (split.requests + ServedObjected(split.rest, v, split.asked)) ==
            split.After(requests).requests + ServedObjected(split.rest, v, split.asked)
  {
  }

  /** Right after the stop, what is to come is what the receive buffer holds. */
  lemma StopServes<H>(p: State<H>, v: Objections)
    requires p.phase.WriteHeader? && p.session.connection.readDisabled
    ensures ServedFrom(p, v) == ServedObjected(p.recv, v, |p.session.seen.answers|)
  {
    hide SplitObjected, ServedObjected;
    Neutral(p.recv);
    ServedSplit(p.recv, v, |p.session.seen.answers|);
  }

  /**
   From the moment that reading is stopped, by a client error or a time-out: the requests that
   any run of ready events hands over, and those still to come, are those that had been handed
   over before and those that the receive buffer is served as.
   */
  lemma RunServesLeftover<H(!new)>(h: Handler<H>, p: State<H>, result: FinalizeResult, events: seq<Event>, v: Objections)
    requires InBounds(h) && TakesContent(h) && OnlyReady(events)
    requires Agrees(v, Run(h, Reject(h, p, result), events).session.seen)
    ensures var q := Run(h, Reject(h, p, result), events);
            q.session.seen.requests + ServedFrom(q, v) ==
            p.session.seen.requests + ServedObjected(p.recv, v, |p.session.seen.answers|)
  {
    hide ServedFrom, TakesContent, Advance, ServedObjected, SplitObjected, Agrees;
    var start := Reject(h, p, result);
    StopServes(start, v);
    var all := p.session.seen.requests + ServedObjected(p.recv, v, |p.session.seen.answers|);
    var inv := (q: State<H>) =>
      Shaped(q) && q.session.connection.readDisabled &&
      (Agrees(v, q.session.seen) ==> q.session.seen.requests + ServedFrom(q, v) == all);
    forall q | inv(q) ensures inv(Advance(h, q).next) { RoundKeepsServing(h, q, v, all); }
    RunEnds(h, start, events, inv, (q: State<H>, status: ProcessorStatus) => true);
  }

  lemma RoundKeepsServing<H(!new)>(h: Handler<H>, p: State<H>, v: Objections, all: seq<Request>)
    requires InBounds(h) && TakesContent(h) && Shaped(p) && p.session.connection.readDisabled
    requires Agrees(v, p.session.seen) ==> p.session.seen.requests + ServedFrom(p, v) == all
    ensures var q := Advance(h, p).next;
            Shaped(q) && q.session.connection.readDisabled &&
            (Agrees(v, q.session.seen) ==> q.session.seen.requests + ServedFrom(q, v) == all)
  {
    hide ServedFrom, TakesContent, Advance, ServedObjected, SplitObjected, Agrees;
    var q := Advance(h, p).next;
    RoundGrows(h, p);
    StoppedStaysStopped(h, p);
    RoundKeepsShape(h, p);
    if Agrees(v, q.session.seen) {
      AgreedBefore(v, p.session.seen, q.session.seen);
      RoundServes(h, p, v);
    }
  }

  /** Some objections agree with any transcript: those that it records. */
  function Recorded<H>(seen: Transcript<H>): Objections {
    (i: nat) => if i < |seen.answers| then seen.answers[i] else None
  }

  lemma RecordedAgrees<H>(seen: Transcript<H>)
    ensures Agrees(Recorded(seen), seen)
  {
  }

  lemma RoundKeepsShape<H(!new)>(h: Handler<H>, p: State<H>)
    requires InBounds(h) && Shaped(p)
    ensures Shaped(Advance(h, p).next)
  {
    hide Advance, Framed, SplitFrom;
    var v := Recorded(Advance(h, p).next.session.seen);
    RecordedAgrees(Advance(h, p).next.session.seen);
    ShapedIsFramed(p, v);
    RoundKeepsFraming(h, SplitFrom(p, v).After(p.session.seen.requests), p, v);
  }

  lemma ShapedIsFramed<H>(p: State<H>, v: Objections)
    requires Shaped(p)
    ensures Framed(SplitFrom(p, v).After(p.session.seen.requests), p, v)
  {
    hide SplitFrom;
  }

  // ---- Runs of a handler that turns no content down ----

  /** What is handed over beyond the requests of the stream: what the leftover of the first error is served as. */
  function LateObjected<H>(seen: Transcript<H>, v: Objections, n: nat): seq<Request> {
    if seen.leftovers == [] then [] else ServedObjected(seen.leftovers[0], v, n)
  }

  /**
   The requests are those of the split, and the first error is the verdict on the stream; the
   leftover of that error starts what lies behind the refusal, and is served after it.
   */
  ghost predicate FaithfulTo<H>(stream: string, p: State<H>, v: Objections) {
    var split := SplitObjected(stream, v, 0);
    var seen := p.session.seen;
    Shaped(p) && |seen.leftovers| == |seen.errors| &&
    if !p.session.connection.readDisabled then Framed(split, p, v) && seen.errors == []
    else
      seen.errors != [] && seen.errors[0] == VerdictOf(split.end) && seen.leftovers[0] <= split.rest &&
      split.requests <= seen.requests &&
      seen.requests + ServedFrom(p, v) == split.requests + LateObjected(seen, v, split.asked)
  }

  lemma StartIsFaithfulTo<H>(connection: Connection, app: H, v: Objections)
    requires !connection.readDisabled
    ensures FaithfulTo(connection.unread, Start(connection, app), v)
  {
    hide SplitObjected, Framed;
    StartIsFramed(connection, app, v);
  }

  lemma RoundKeepsFaithfulTo<H(!new)>(h: Handler<H>, stream: string, p: State<H>, v: Objections)
    requires InBounds(h) && TakesContent(h) && FaithfulTo(stream, p, v) && Agrees(v, Advance(h, p).next.session.seen)
    ensures FaithfulTo(stream, Advance(h, p).next, v)
  {
    hide SplitObjected, SplitHeader, SplitBody, TakesContent, Advance, ServedFrom, ServedObjected, Framed, Agrees;
    RoundGrows(h, p);
    if p.session.connection.readDisabled {
      RoundServes(h, p, v);
      RoundKeepsCounts(h, p);
    } else {
      RoundKeepsFraming(h, SplitObjected(stream, v, 0), p, v);
      var q := Advance(h, p).next;
      if |q.session.seen.errors| != |p.session.seen.errors| { StopServes(q, v); }
    }
  }

  lemma RoundKeepsCounts<H(!new)>(h: Handler<H>, p: State<H>)
    requires InBounds(h) && |p.session.seen.leftovers| == |p.session.seen.errors|
    ensures var seen := Advance(h, p).next.session.seen; |seen.leftovers| == |seen.errors|
  {
    hide CallPhase;
    CallGrows(h, p);
  }

  /** A run of ready events only: nothing times out. */
  predicate OnlyReady(events: seq<Event>) {
    forall i :: 0 <= i < |events| ==> events[i] == Ready
  }

  lemma RoundKeepsFaithfulIfAgreed<H(!new)>(h: Handler<H>, stream: string, p: State<H>, v: Objections)
    requires InBounds(h) && TakesContent(h) && (Agrees(v, p.session.seen) ==> FaithfulTo(stream, p, v))
    ensures var q := Advance(h, p).next; Agrees(v, q.session.seen) ==> FaithfulTo(stream, q, v)
  {
    hide FaithfulTo, TakesContent, Advance, Agrees;
    var q := Advance(h, p).next;
    RoundGrows(h, p);
    if Agrees(v, q.session.seen) {
      AgreedBefore(v, p.session.seen, q.session.seen);
      RoundKeepsFaithfulTo(h, stream, p, v);
    }
  }

  lemma ReadyRunKeepsFaithfulTo<H(!new)>(h: Handler<H>, stream: string, p: State<H>, events: seq<Event>, v: Objections)
    requires InBounds(h) && TakesContent(h) && OnlyReady(events) && FaithfulTo(stream, p, v)
    requires Agrees(v, Run(h, p, events).session.seen)
    ensures FaithfulTo(stream, Run(h, p, events), v)
  {
    hide FaithfulTo, TakesContent, Advance, Agrees;
    var inv := (q: State<H>) => Agrees(v, q.session.seen) ==> FaithfulTo(stream, q, v);
    forall q | inv(q) ensures inv(Advance(h, q).next) { RoundKeepsFaithfulIfAgreed(h, stream, q, v); }
    RunEnds(h, p, events, inv, (q: State<H>, status: ProcessorStatus) => true);
  }

  /**
   With a handler that takes all content, every run of ready events hands over the requests of
   the split by what the handler objects to, and the first error reported (a bad or oversized
   header, a wrong version, a bad length, an objection, a stream cut short) is the one that the
   stream and the objections determine. After it only what the receive buffer held is served,
   which is a start of what lies behind the refusal.
   */
  lemma OutcomeDependsOnObjections<H(!new)>(h: Handler<H>, connection: Connection, app: H, events: seq<Event>, v: Objections)
    requires InBounds(h) && TakesContent(h) && OnlyReady(events) && !connection.readDisabled
    requires Agrees(v, Run(h, Start(connection, app), events).session.seen)
    ensures var split := SplitObjected(connection.unread, v, 0);
            var seen := Run(h, Start(connection, app), events).session.seen;
            if seen.errors == [] then seen.requests <= split.requests
            else
              seen.errors[0] == VerdictOf(split.end) && seen.leftovers != [] && seen.leftovers[0] <= split.rest &&
              split.requests <= seen.requests <= split.requests + LateObjected(seen, v, split.asked)
  {
    hide SplitObjected, TakesContent, Framed, Run, LateObjected, Agrees;
    StartIsFaithfulTo(connection, app, v);
    ReadyRunKeepsFaithfulTo(h, connection.unread, Start(connection, app), events, v);
    var p := Run(h, Start(connection, app), events);
    if !p.session.connection.readDisabled { FramedRequestsArePrefix(SplitObjected(connection.unread, v, 0), p, v); }
  }

  // ---- Runs of a handler that refuses nothing ----

  function ServedLate<H>(seen: Transcript<H>): seq<Request> {
    if seen.leftovers == [] then [] else Served(seen.leftovers[0])
  }

  ghost predicate Faithful<H>(stream: string, p: State<H>) {
    FaithfulTo(stream, p, NO_OBJECTIONS) && Agrees(NO_OBJECTIONS, p.session.seen)
  }

  lemma StartIsFaithful<H>(connection: Connection, app: H)
    requires !connection.readDisabled
    ensures Faithful(connection.unread, Start(connection, app))
  {
    hide FaithfulTo;
    StartIsFaithfulTo(connection, app, NO_OBJECTIONS);
  }

  /** A handler that objects to nothing has no objections on record. */
  lemma NothingObjected<H(!new)>(h: Handler<H>, p: State<H>)
    requires InBounds(h) && NeverObjects(h) && Agrees(NO_OBJECTIONS, p.session.seen)
    ensures Agrees(NO_OBJECTIONS, Advance(h, p).next.session.seen)
  {
    hide CallPhase, Agrees, NeverObjects;
    match p.phase {
      case ReadHeader(_, _) => NothingObjectedToHeader(h, p);
      case ReadBody(_) => NothingObjectedToBody(h, p);
      case WriteHeader(_) => WritingKeepsInput(h, p);
      case WriteBody(_) => WritingKeepsInput(h, p);
      case WaitForData => WaitCallKeepsPending(h, p);
    }
    ConcludeKeepsAnswers(h, p);
    AgreedBefore(NO_OBJECTIONS, Advance(h, p).next.session.seen, CallPhase(h, p).0.session.seen);
  }

  lemma NothingObjectedToHeader<H(!new)>(h: Handler<H>, p: State<H>)
    requires InBounds(h) && NeverObjects(h) && p.phase.ReadHeader? && Agrees(NO_OBJECTIONS, p.session.seen)
    ensures Agrees(NO_OBJECTIONS, CallPhase(h, p).0.session.seen)
  {
    hide Pump;
    HeaderCallbacksInBounds();
  }

  lemma NothingObjectedToBody<H(!new)>(h: Handler<H>, p: State<H>)
    requires InBounds(h) && NeverObjects(h) && p.phase.ReadBody? && Agrees(NO_OBJECTIONS, p.session.seen)
    ensures Agrees(NO_OBJECTIONS, CallPhase(h, p).0.session.seen)
  {
    hide Pump;
    BodyCallbacksInBounds(h);
    BodyDelivers(h, p.session.connection, Listener(p.session.app, p.session.seen), p.recv, p.phase.left);
  }

  lemma RoundKeepsFaithful<H(!new)>(h: Handler<H>, stream: string, p: State<H>)
    requires InBounds(h) && NeverRefuses(h) && Faithful(stream, p)
    ensures Faithful(stream, Advance(h, p).next)
  {
    hide FaithfulTo, TakesContent, NeverObjects, Advance, Agrees;
    NothingObjected(h, p);
    RoundKeepsFaithfulTo(h, stream, p, NO_OBJECTIONS);
  }

  lemma ReadyRunKeepsFaithful<H(!new)>(h: Handler<H>, stream: string, p: State<H>, events: seq<Event>)
    requires InBounds(h) && NeverRefuses(h) && OnlyReady(events) && Faithful(stream, p)
    ensures Faithful(stream, Run(h, p, events))
  {
    hide Faithful, NeverRefuses, Advance;
    var inv := (q: State<H>) => Faithful(stream, q);
    forall q | inv(q) ensures inv(Advance(h, q).next) { RoundKeepsFaithful(h, stream, q); }
    RunEnds(h, p, events, inv, (q: State<H>, status: ProcessorStatus) => true);
  }

  /** How many questions were put before makes no difference to a handler that objects to nothing. */
  lemma {:induction false} CountDoesNotMatter(s: string, n: nat, m: nat)
    ensures SplitObjected(s, NO_OBJECTIONS, n) ==
            SplitObjected(s, NO_OBJECTIONS, m).(asked := SplitObjected(s, NO_OBJECTIONS, n).asked)
    decreases |s|
  {
    hide SplitObjected, HeaderSpec.ReadHeader, SplitHeaderDone;
    var window := s[..Min(MAX_HEADER_SIZE, |s|)];
    HeaderSpec.MachineReadsHeader(window);
    var o := HeaderSpec.ReadHeader(window);
    SplitOnce(s, NO_OBJECTIONS, n);
    SplitOnce(s, NO_OBJECTIONS, m);
    if o.ec == HeaderParser.Completed && Refusal(o.header) != None {
      DoneAndRefused(o.header, s[o.consumed..], NO_OBJECTIONS, n);
      DoneAndRefused(o.header, s[o.consumed..], NO_OBJECTIONS, m);
    } else if o.ec == HeaderParser.Completed {
      var left, t := ContentLength(o.header.fields).value, s[o.consumed..];
      DoneWithoutObjections(o.header, t, n);
      DoneWithoutObjections(o.header, t, m);
      if left <= |t| { CountDoesNotMatter(t[left..], n + 2, m + 2); }
    }
  }

  lemma SplitOnce(s: string, v: Objections, n: nat)
    ensures var window := s[..Min(MAX_HEADER_SIZE, |s|)];
            var o := HeaderSpec.ReadHeader(window);
            o.consumed <= |window| && (o.ec != HeaderParser.MoreDataNeeded ==> o.consumed > 0) &&
            SplitObjected(s, v, n) == SplitAfter(o, MAX_HEADER_SIZE, s, v, n)
  {
    hide HeaderSpec.ReadHeader, SplitAfter;
    HeaderSpec.MachineReadsHeader(s[..Min(MAX_HEADER_SIZE, |s|)]);
  }

  lemma DoneWithoutObjections(header: RequestHeader, s: string, n: nat)
    requires Refusal(header) == None
    ensures var left := ContentLength(header.fields).value;
            SplitHeaderDone(header, s, NO_OBJECTIONS, n) ==
            if |s| < left then Split([], InBody(header, s), "", n + 1)
            else SplitObjected(s[left..], NO_OBJECTIONS, n + 2).After([Request(header, s[..left])])
  {
    hide SplitObjected;
    var left := ContentLength(header.fields).value;
    assert NO_OBJECTIONS(n) == None && NO_OBJECTIONS(n + 1) == None;
    assert SplitHeaderDone(header, s, NO_OBJECTIONS, n) == SplitBody(header, "", left, s, NO_OBJECTIONS, n + 1);
    if |s| < left {
      Neutral(s);
    } else {
      Neutral(s[..left]);
      assert SplitBehind(s[left..], NO_OBJECTIONS, n + 1) == SplitObjected(s[left..], NO_OBJECTIONS, n + 2);
    }
  }

  lemma DoneAndRefused(header: RequestHeader, s: string, v: Objections, n: nat)
    requires Refusal(header).Some?
    ensures SplitHeaderDone(header, s, v, n) == Split([], Refused(Refusal(header).value), s, n)
  {
  }

  lemma {:induction false} ServedWithoutObjections(s: string, n: nat)
    ensures ServedObjected(s, NO_OBJECTIONS, n) == Served(s)
    decreases |s|
  {
    hide SplitObjected;
    if s != "" {
      CountDoesNotMatter(s, n, 0);
      ServedWithoutObjections(SplitObjected(s, NO_OBJECTIONS, n).rest, SplitObjected(s, NO_OBJECTIONS, n).asked);
      ServedWithoutObjections(SplitObjected(s, NO_OBJECTIONS, n).rest, SplitObjected(s, NO_OBJECTIONS, 0).asked);
    }
  }

  lemma LateWithoutObjections<H>(seen: Transcript<H>, n: nat)
    ensures LateObjected(seen, NO_OBJECTIONS, n) == ServedLate(seen)
  {
    if seen.leftovers != [] { ServedWithoutObjections(seen.leftovers[0], n); }
  }

  /**
   With a handler that refuses nothing, the outcome depends on the stream only: the requests are
   those of its split, and the first error is its verdict. After it only what the receive buffer
   held is served, which is a start of what lies behind the refusal.
   */
  lemma OutcomeDependsOnStreamOnly<H(!new)>(h: Handler<H>, connection: Connection, app: H, events: seq<Event>)
    requires InBounds(h) && NeverRefuses(h) && OnlyReady(events) && !connection.readDisabled
    ensures var split := SplitStream(connection.unread);
            var seen := Run(h, Start(connection, app), events).session.seen;
            if seen.errors == [] then seen.requests <= split.requests
            else
              seen.errors[0] == VerdictOf(split.end) && seen.leftovers != [] && seen.leftovers[0] <= split.rest &&
              split.requests <= seen.requests <= split.requests + ServedLate(seen)
  {
    hide SplitObjected, NeverObjects, TakesContent, FaithfulTo, Run, LateObjected, ServedLate, Agrees;
    StartIsFaithful(connection, app);
    ReadyRunKeepsFaithful(h, connection.unread, Start(connection, app), events);
    OutcomeDependsOnObjections(h, connection, app, events, NO_OBJECTIONS);
    LateWithoutObjections(Run(h, Start(connection, app), events).session.seen, SplitStream(connection.unread).asked);
  }

  /** Two runs over the same stream, with any two schedules, agree up to and including the first error. */
  lemma FragmentationDoesNotMatter<H(!new)>(h: Handler<H>, app: H, c: Connection, d: Connection, c_events: seq<Event>, d_events: seq<Event>)
    requires InBounds(h) && NeverRefuses(h) && OnlyReady(c_events) && OnlyReady(d_events)
    requires c.unread == d.unread && !c.readDisabled && !d.readDisabled
    ensures var a := Run(h, Start(c, app), c_events).session.seen;
            var b := Run(h, Start(d, app), d_events).session.seen;
            (forall i :: 0 <= i < |a.requests| && i < |b.requests| && i < |SplitStream(c.unread).requests| ==>
               a.requests[i] == b.requests[i]) &&
            (a.errors != [] && b.errors != [] ==> a.errors[0] == b.errors[0])
  {
    hide SplitStream, NeverRefuses, Run, ServedLate;
    OutcomeDependsOnStreamOnly(h, c, app, c_events);
    OutcomeDependsOnStreamOnly(h, d, app, d_events);
  }
}
