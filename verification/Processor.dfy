/**
 The request processor: the loop over the phases of `socket_is_ready`, the idle event, and
 runs of such events. The loop terminates because a pass through all phases uses up input.
 */
module Processor {
  import opened Text
  import opened MessageHeader
  import opened IoAdapter
  import opened Session
  import opened Phases
  import HeaderParser

  datatype ProcessorStatus =
    | ProcessorCompleted
    | ProcessorMoreDataNeeded
    | ProcessorApplicationError
    | ProcessorIoError
    | ProcessorAborted

  datatype ProcessResult = ProcessResult(status: ProcessorStatus, direction: Direction)

  predicate IsTerminated(status: ProcessorStatus) {
    status != ProcessorMoreDataNeeded
  }

  /** The processor with the contents of its two buffers. */
  datatype State<H> = State(phase: Phase, direction: Direction, session: SessionState<H>, recv: string, send: string)

  function Start<H>(connection: Connection, app: H): State<H> {
    State(NEW_HEADER, Input,
          SessionState(connection, app, EMPTY_HEADER, 0, EMPTY_RESPONSE, Transcript([], None, [], [], [], [])), "", "")
  }

  // ---- One round of the loop ----

  /** One call of the current phase, on the buffer of its direction. */
  ghost function CallPhase<H(!new)>(h: Handler<H>, p: State<H>): (State<H>, StateResponse)
    requires InBounds(h)
  {
    var input := DirectionOf(p.phase) == Input;
    var buffer := if input then p.recv else p.send;
    var o := match p.phase
      case ReadHeader(parser, budget) => ReadHeaderReady(h, parser, budget, p.session, buffer)
      case ReadBody(left) => ReadBodyReady(h, left, p.session, buffer)
      case WriteHeader(rest) => WriteHeaderReady(rest, p.session, buffer)
      case WriteBody(left) => WriteBodyReady(h, left, p.session, buffer)
      case WaitForData => WaitReady(p.session, buffer);
    (State(o.phase, p.direction, o.session, if input then o.buffer else p.recv, if input then p.send else o.buffer),
     o.answer)
  }

  /** Entering the phase that writes `response`, with a note of it in the transcript. */
  function EnterWriteHeader<H>(h: Handler<H>, p: State<H>): State<H> {
    var s := p.session;
    var header := Filled(s.response, h.statusText);
    p.(phase := WriteHeader(Serialize(header)), direction := Output, session := s.(seen := s.seen.Respond(header, s.app)))
  }

  /** Giving up on the client: no more reading, and the handler prepares an error response. */
  function Reject<H>(h: Handler<H>, p: State<H>, result: FinalizeResult): State<H> {
    var s := p.session;
    var (app, fields) := h.finalizeError(s.app, [], result);
    var response := ResponseHeader(HTTP_1_1, result.httpStatus, h.statusText(result.httpStatus), fields);
    EnterWriteHeader(h, p.(session := s.(connection := s.connection.StopReading(), app := app,
                                         response := response, seen := s.seen.Fail(result, p.recv))))
  }

  /** `Go` round the loop again, or be `Done` with the event. */
  datatype Round<H> = Go(next: State<H>) | Done(next: State<H>, status: ProcessorStatus)

  function Conclude<H>(h: Handler<H>, p: State<H>, answer: StateResponse): Round<H> {
    match answer.status
    case PhaseCompleted =>
      (match NextPhase(p.phase, p.session.contentLength, Filled(p.session.response, h.statusText))
       case None => Done(p, ProcessorAborted)
       case Some(next) =>
         if next.WriteHeader? then Go(EnterWriteHeader(h, p))
         else Go(p.(phase := next, direction := DirectionOf(next))))
    case ConnectionClosed => Done(p, ProcessorCompleted)
    case MoreDataNeeded => Done(p, ProcessorMoreDataNeeded)
    case ClientErrorDetected => Go(Reject(h, p, answer.result))
    case WriteResponseFailed => Done(p, ProcessorApplicationError)
    case IoError => Done(p, ProcessorIoError)
    case Aborted => Done(p, ProcessorAborted)
  }

  ghost function Advance<H(!new)>(h: Handler<H>, p: State<H>): Round<H>
    requires InBounds(h)
  {
    var (q, answer) := CallPhase(h, p);
    Conclude(h, q, answer)
  }

  // ---- Why the loop ends ----

  /** All the input there still is: what the client has yet to be read, and what is buffered. */
  function InputLeft<H>(p: State<H>): nat {
    |p.session.connection.unread| + |p.recv|
  }

  /** A header about to be read from a buffer that holds some of it: it will take at least one octet. */
  predicate WillConsume<H>(p: State<H>) {
    p.phase.ReadHeader? && p.phase.budget > 0 && p.recv != []
  }

  function InputMeasure<H>(p: State<H>): nat {
    if WillConsume(p) then InputLeft(p) - 1 else InputLeft(p)
  }

  function Rank(phase: Phase): nat {
    match phase
    case ReadHeader(_, _) => 4
    case ReadBody(_) => 3
    case WriteHeader(_) => 2
    case WriteBody(_) => 1
    case WaitForData => 0
  }

  lemma SocketGives<W(!new), F(!new)>(snk: Sink<W, F>, c: Connection, w: W, buffer: string, budget: nat)
    requires SourceInBounds(SOCKET_SOURCE) && SinkInBounds(snk)
    ensures var t := Pump(SOCKET_SOURCE, snk, BUFFER_SIZE, c, w, buffer, budget);
            c.unread == t.fetched + t.source.unread &&
            buffer + c.unread == t.delivered + (t.buffer + t.source.unread)
  {
    var rest := (x: Connection) => x.unread;
    forall x: Connection, n {:trigger SOCKET_SOURCE.read(x, n)}
      ensures rest(x) == SOCKET_SOURCE.read(x, n).bytes + rest(SOCKET_SOURCE.read(x, n).state)
    {
      ReadGives(x, n);
    }
    SourceGives(SOCKET_SOURCE, snk, BUFFER_SIZE, c, w, buffer, budget, rest);
    Conservation(SOCKET_SOURCE, snk, BUFFER_SIZE, c, w, buffer, budget);
    var t := Pump(SOCKET_SOURCE, snk, BUFFER_SIZE, c, w, buffer, budget);
    Associates(buffer, t.fetched, t.source.unread);
    Associates(t.delivered, t.buffer, t.source.unread);
  }

  lemma ReadGives(c: Connection, room: nat)
    ensures c.unread == c.Read(room).bytes + c.Read(room).state.unread
  {
  }

  /** A header transfer that finds octets in its buffer delivers some of them. */
  lemma HeaderTakesSome(c: Connection, parser: HeaderParser.Parser, buffer: string, budget: nat)
    requires SourceInBounds(SOCKET_SOURCE) && SinkInBounds(HEADER_SINK)
    requires buffer != [] && budget > 0
    ensures Pump(SOCKET_SOURCE, HEADER_SINK, BUFFER_SIZE, c, parser, buffer, budget).delivered != []
  {
    var span := buffer[..Min(budget, |buffer|)];
    assert span != [];
    assert HeaderParser.Feed(parser, span).consumed > 0;
  }

  lemma HeaderCallUsesInput<H(!new)>(h: Handler<H>, p: State<H>)
    requires InBounds(h) && p.phase.ReadHeader?
    ensures var q := CallPhase(h, p).0; InputLeft(q) <= InputMeasure(p) && q.phase.ReadHeader?
  {
    hide Pump;
    var ReadHeader(parser, budget) := p.phase;
    HeaderCallbacksInBounds();
    SocketGives(HEADER_SINK, p.session.connection, parser, p.recv, budget);
    if WillConsume(p) { HeaderTakesSome(p.session.connection, parser, p.recv, budget); }
  }

  lemma BodyCallUsesInput<H(!new)>(h: Handler<H>, p: State<H>)
    requires InBounds(h) && p.phase.ReadBody?
    ensures var q := CallPhase(h, p).0; InputLeft(q) <= InputLeft(p) && q.phase.ReadBody?
  {
    hide Pump;
    BodyCallbacksInBounds(h);
    SocketGives(BodySink(h), p.session.connection, Listener(p.session.app, p.session.seen), p.recv, p.phase.left);
  }

  lemma WritingStaysInPhase<H(!new)>(h: Handler<H>, p: State<H>)
    requires InBounds(h) && DirectionOf(p.phase) == Output
    ensures Rank(CallPhase(h, p).0.phase) == Rank(p.phase) && CallPhase(h, p).1.status != ClientErrorDetected
  {
    hide Pump;
    match p.phase
    case WriteHeader(_) => WriteHeaderCallbacksInBounds();
    case WriteBody(_) => WriteBodyCallbacksInBounds(h);
  }

  /** A call of an input phase never adds input, and takes some where `WillConsume` says so. */
  lemma CallUsesInput<H(!new)>(h: Handler<H>, p: State<H>)
    requires InBounds(h)
    ensures var q := CallPhase(h, p).0;
            InputLeft(q) <= InputMeasure(p) && Rank(q.phase) == Rank(p.phase)
    ensures p.phase.WaitForData? && CallPhase(h, p).1.status == PhaseCompleted ==> CallPhase(h, p).0.recv != []
    ensures CallPhase(h, p).1.status == ClientErrorDetected ==> p.phase.ReadHeader? || p.phase.ReadBody?
  {
    hide CallPhase;
    match p.phase
    case ReadHeader(_, _) => HeaderCallUsesInput(h, p);
    case ReadBody(_) => BodyCallUsesInput(h, p);
    case WriteHeader(_) => WritingKeepsInput(h, p); WritingStaysInPhase(h, p);
    case WriteBody(_) => WritingKeepsInput(h, p); WritingStaysInPhase(h, p);
    case WaitForData => WaitUsesInput(h, p);
  }

  lemma WaitUsesInput<H(!new)>(h: Handler<H>, p: State<H>)
    requires InBounds(h) && p.phase.WaitForData?
    ensures var (q, answer) := CallPhase(h, p);
            InputLeft(q) <= InputLeft(p) && q.phase.WaitForData? && answer.status != ClientErrorDetected &&
            (answer.status == PhaseCompleted ==> q.recv != [])
  {
  }

  lemma {:induction false} SinkKeepsUnread<S(!new), E(!new)>(src: Source<S, E>, s: S, c: Connection, buffer: string, budget: nat)
    requires SourceInBounds(src) && SinkInBounds(SOCKET_SINK)
    ensures var d := Pump(src, SOCKET_SINK, BUFFER_SIZE, s, c, buffer, budget).sink;
            d.unread == c.unread && d.readDisabled == c.readDisabled &&
            d.readCount == c.readCount && d.readEvents == c.readEvents && d.writeEvents == c.writeEvents
    decreases budget, buffer == []
  {
    hide Pump;
    PumpOnce(src, SOCKET_SINK, BUFFER_SIZE, s, c, buffer, budget);
    if budget > 0 {
      if buffer == [] {
        var got := src.read(s, BUFFER_SIZE);
        if !(src.stops(got.ec) || got.bytes == []) {
          SinkKeepsUnread(src, got.state, c, got.bytes, budget);
        }
      } else {
        var span := buffer[..Min(budget, |buffer|)];
        var took := SOCKET_SINK.write(c, span, budget);
        if !(SOCKET_SINK.stops(took.ec) || took.count == 0) {
          SinkKeepsUnread(src, s, took.state, buffer[took.count..], budget - took.count);
        }
      }
    }
  }

  lemma WritingKeepsInput<H(!new)>(h: Handler<H>, p: State<H>)
    requires InBounds(h) && DirectionOf(p.phase) == Output
    ensures var q := CallPhase(h, p).0;
            q.recv == p.recv && q.session.connection.unread == p.session.connection.unread &&
            q.session.connection.readDisabled == p.session.connection.readDisabled &&
            q.session.connection.readCount == p.session.connection.readCount &&
            q.session.seen == p.session.seen
  {
    match p.phase
    case WriteHeader(rest) =>
      WriteHeaderCallbacksInBounds();
      SinkKeepsUnread(SERIALIZER, rest, p.session.connection, p.send, SIZE_MAX);
    case WriteBody(left) =>
      WriteBodyCallbacksInBounds(h);
      SinkKeepsUnread(ContentSource(h), p.session.app, p.session.connection, p.send, left);
  }

  /** Every round that goes on uses up input, or else moves on to a phase of lower rank. */
  lemma {:induction false} RoundsDescend<H(!new)>(h: Handler<H>, p: State<H>)
    requires InBounds(h)
    ensures var r := Advance(h, p);
            r.Go? ==> InputMeasure(r.next) < InputMeasure(p) ||
                      (InputMeasure(r.next) == InputMeasure(p) && Rank(r.next.phase) < Rank(p.phase))
  {
    hide CallPhase;
    CallUsesInput(h, p);
  }

  // ---- Events and runs ----

  ghost function SocketIsReady<H(!new)>(h: Handler<H>, p: State<H>): (State<H>, ProcessResult)
    requires InBounds(h)
    decreases InputMeasure(p), Rank(p.phase)
  {
    RoundsDescend(h, p);
    match Advance(h, p)
    case Go(q) => SocketIsReady(h, q)
    case Done(q, status) => (q, ProcessResult(status, q.direction))
  }

  function SocketIsIdle<H>(h: Handler<H>, p: State<H>): (State<H>, ProcessResult) {
    match DirectionOf(p.phase)
    case Input =>
      var q := Reject(h, p, FinalizeResult(REQUEST_TIMEOUT, h.statusText(REQUEST_TIMEOUT)));
      (q, ProcessResult(ProcessorMoreDataNeeded, q.direction))
    case Output => (p, ProcessResult(ProcessorCompleted, p.direction))
  }

  datatype Event = Ready | Idle

  ghost function Handle<H(!new)>(h: Handler<H>, p: State<H>, event: Event): (State<H>, ProcessResult)
    requires InBounds(h)
  {
    match event
    case Ready => SocketIsReady(h, p)
    case Idle => SocketIsIdle(h, p)
  }

  /** The states of a run: events are handled until one of them terminates the session. */
  ghost function Run<H(!new)>(h: Handler<H>, p: State<H>, events: seq<Event>): State<H>
    requires InBounds(h)
    decreases events
  {
    if events == [] then p
    else
      var (q, result) := Handle(h, p, events[0]);
      if IsTerminated(result.status) then q else Run(h, q, events[1..])
  }

  /** How the last event of a run was answered. */
  ghost function RunStatus<H(!new)>(h: Handler<H>, p: State<H>, events: seq<Event>): ProcessorStatus
    requires InBounds(h)
    decreases events
  {
    if events == [] then ProcessorMoreDataNeeded
    else
      var (q, result) := Handle(h, p, events[0]);
      if IsTerminated(result.status) then result.status else RunStatus(h, q, events[1..])
  }

  /** An invariant of the rounds and of the idle event holds throughout every run. */
  lemma {:induction false} ReadyKeeps<H(!new)>(h: Handler<H>, p: State<H>, inv: State<H> -> bool)
    requires InBounds(h) && inv(p)
    requires forall q :: inv(q) ==> inv(Advance(h, q).next)
    ensures inv(SocketIsReady(h, p).0)
    decreases InputMeasure(p), Rank(p.phase)
  {
    RoundsDescend(h, p);
    match Advance(h, p)
    case Go(q) => ReadyKeeps(h, q, inv);
    case Done(_, _) =>
  }

  lemma {:induction false} RunKeeps<H(!new)>(h: Handler<H>, p: State<H>, events: seq<Event>, inv: State<H> -> bool)
    requires InBounds(h) && inv(p)
    requires forall q :: inv(q) ==> inv(Advance(h, q).next)
    requires forall q :: inv(q) ==> inv(SocketIsIdle(h, q).0)
    ensures inv(Run(h, p, events))
    decreases events
  {
    if events != [] {
      if events[0] == Ready { ReadyKeeps(h, p, inv); }
      var (q, result) := Handle(h, p, events[0]);
      if !IsTerminated(result.status) { RunKeeps(h, q, events[1..], inv); }
    }
  }

  /** What the end of a round guarantees under an invariant, the end of the event guarantees. */
  lemma {:induction false} ReadyEnds<H(!new)>(h: Handler<H>, p: State<H>, inv: State<H> -> bool,
                                              post: (State<H>, ProcessorStatus) -> bool)
    requires InBounds(h) && inv(p)
    requires forall q :: inv(q) ==> inv(Advance(h, q).next)
    requires forall q :: inv(q) && Advance(h, q).Done? ==> post(Advance(h, q).next, Advance(h, q).status)
    ensures inv(SocketIsReady(h, p).0) && post(SocketIsReady(h, p).0, SocketIsReady(h, p).1.status)
    decreases InputMeasure(p), Rank(p.phase)
  {
    hide Advance;
    RoundsDescend(h, p);
    match Advance(h, p)
    case Go(q) => ReadyEnds(h, q, inv, post);
    case Done(_, _) =>
  }

  /** The same for the last event of a run; time-outs have to be looked at only if there are any. */
  lemma {:induction false} RunEnds<H(!new)>(h: Handler<H>, p: State<H>, events: seq<Event>, inv: State<H> -> bool,
                                            post: (State<H>, ProcessorStatus) -> bool)
    requires InBounds(h) && inv(p)
    requires forall q :: inv(q) ==> inv(Advance(h, q).next)
    requires forall q :: inv(q) && Advance(h, q).Done? ==> post(Advance(h, q).next, Advance(h, q).status)
    requires Idle in events ==>
               forall q :: inv(q) ==> inv(SocketIsIdle(h, q).0) && post(SocketIsIdle(h, q).0, SocketIsIdle(h, q).1.status)
    ensures inv(Run(h, p, events))
    ensures events != [] ==> post(Run(h, p, events), RunStatus(h, p, events))
    decreases events
  {
    hide Advance;
    if events != [] {
      if events[0] == Ready { ReadyEnds(h, p, inv, post); }
      var (q, result) := Handle(h, p, events[0]);
      if !IsTerminated(result.status) { RunEnds(h, q, events[1..], inv, post); }
    }
  }
}
