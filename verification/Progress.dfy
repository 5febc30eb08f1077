/**
 Progress: as long as the socket makes progress, and the handler puts nothing off, a number of
 ready events ends every session.
 */
module Progress {
  import opened IoAdapter
  import opened Session
  import opened Phases
  import opened Processor
  import opened FramingRuns
  import opened Responses

  // ---- Schedules that make progress ----

  ghost predicate Later(good: nat -> bool, i: nat) {
    exists j :: i <= j && good(j)
  }

  ghost function First(good: nat -> bool, i: nat, j: nat): (k: nat)
    requires i <= j && good(j)
    ensures i <= k <= j && good(k)
    ensures forall n :: i <= n < k ==> !good(n)
    decreases j - i
  {
    if good(i) then i else First(good, i + 1, j)
  }

  /** How many calls from number `i` on come before the next good one. */
  ghost function Until(good: nat -> bool, i: nat): (n: nat)
    requires Later(good, i)
    ensures good(i + n)
    ensures forall k :: i <= k < i + n ==> !good(k)
  {
    var j :| i <= j && good(j);
    First(good, i, j) - i
  }

  function Accepted(c: Connection): nat -> bool {
    (i: nat) => c.writeEvents(i).Accept?
  }

  function Delivered(c: Connection): nat -> bool {
    (i: nat) => c.readEvents(i).Deliver?
  }

  /** Writes progress: they may block, but not for ever, and none fails or takes no octet. */
  ghost predicate WritesProgress(c: Connection) {
    (forall i :: c.writeEvents(i).WriteBlocks? || (c.writeEvents(i).Accept? && c.writeEvents(i).most > 0)) &&
    (forall i :: Later(Accepted(c), i))
  }

  /** Reads progress: they may block, but not for ever, and none fails. */
  ghost predicate ReadsProgress(c: Connection) {
    (forall i :: !c.readEvents(i).ReadFails?) &&
    (forall i :: Later(Delivered(c), i))
  }

  /** The socket progresses; reads need not any more once they have been stopped. */
  ghost predicate Progressing(c: Connection) {
    WritesProgress(c) && (c.readDisabled || ReadsProgress(c))
  }

  ghost function WritesLeft(c: Connection): nat
    requires WritesProgress(c)
  {
    Until(Accepted(c), c.writeCount)
  }

  ghost function ReadsLeft(c: Connection): nat
    requires ReadsProgress(c)
  {
    Until(Delivered(c), c.readCount)
  }

  lemma SameLater(f: nat -> bool, g: nat -> bool, i: nat)
    requires Later(f, i) && forall k :: f(k) == g(k)
    ensures Later(g, i)
  {
    var j :| i <= j && f(j);
    assert g(j);
  }

  /** A call that is not good is one of those before the next good one. */
  lemma OneLess(f: nat -> bool, g: nat -> bool, i: nat)
    requires Later(f, i) && Later(g, i + 1) && !f(i) && forall k :: f(k) == g(k)
    ensures Until(g, i + 1) < Until(f, i)
  {
    assert g(i + Until(f, i));
  }

  lemma SameWrites(c: Connection, d: Connection)
    requires WritesProgress(c) && d.writeEvents == c.writeEvents
    ensures WritesProgress(d)
  {
    forall i ensures Later(Accepted(d), i) { SameLater(Accepted(c), Accepted(d), i); }
  }

  lemma SameReads(c: Connection, d: Connection)
    requires ReadsProgress(c) && d.readEvents == c.readEvents
    ensures ReadsProgress(d)
  {
    forall i ensures Later(Delivered(d), i) { SameLater(Delivered(c), Delivered(d), i); }
  }

  lemma SameProgress(c: Connection, d: Connection)
    requires Progressing(c) && d.writeEvents == c.writeEvents && d.readEvents == c.readEvents
    requires c.readDisabled ==> d.readDisabled
    ensures Progressing(d)
  {
    hide WritesProgress, ReadsProgress;
    SameWrites(c, d);
    if !c.readDisabled { SameReads(c, d); }
  }

  /** A handler that never puts anything off: it takes body octets and has content when it owes some. */
  ghost predicate NeverStalls<H(!new)>(h: Handler<H>, pending: H -> string) {
    (forall app, span, budget :: span != [] ==>
       var took := h.processContent(app, span, budget); took.count > 0 && !took.ec.isError) &&
    (forall app, room :: room > 0 && pending(app) != [] ==>
       var got := h.readContent(app, room); got.bytes != [] && !got.ec.isError)
  }

  lemma NextWrite(c: Connection)
    requires WritesProgress(c)
    ensures var next := c.writeEvents(c.writeCount);
            next.WriteBlocks? || (next.Accept? && next.most > 0)
  {
  }

  /** A write that stops a transfer has blocked, after others were accepted or at once. */
  lemma {:induction false} WritingAdvances<S(!new), E(!new)>(src: Source<S, E>, s: S, c: Connection, buffer: string, budget: nat)
    requires SourceInBounds(src) && SinkInBounds(SOCKET_SINK) && WritesProgress(c)
    ensures var t := Pump(src, SOCKET_SINK, BUFFER_SIZE, s, c, buffer, budget);
            t.sink.writeEvents == c.writeEvents &&
            (t.ending.SinkStopped? ==>
               t.ending.sinkCode == WouldBlock &&
               (t.delivered != [] || (t.sink.writeCount == c.writeCount + 1 && c.writeEvents(c.writeCount).WriteBlocks?)))
    decreases budget, buffer == []
  {
    hide WritesProgress;
    if budget > 0 {
      if buffer == [] {
        var got := src.read(s, BUFFER_SIZE);
        if !(src.stops(got.ec) || got.bytes == []) {
          WritingAdvances(src, got.state, c, got.bytes, budget);
        }
      } else {
        var span := buffer[..Min(budget, |buffer|)];
        var took := SOCKET_SINK.write(c, span, budget);
        NextWrite(c);
        if !(SOCKET_SINK.stops(took.ec) || took.count == 0) {
          SameWrites(c, took.state);
          WritingAdvances(src, s, took.state, buffer[took.count..], budget - took.count);
        }
      }
    }
  }

  lemma NextRead(c: Connection)
    requires ReadsProgress(c)
    ensures !c.readEvents(c.readCount).ReadFails?
  {
  }

  /** A read that stops a transfer has found the end, or has blocked, after others delivered or at once. */
  lemma {:induction false} ReadingAdvances<W(!new), F(!new)>(snk: Sink<W, F>, c: Connection, w: W, buffer: string, budget: nat)
    requires SourceInBounds(SOCKET_SOURCE) && SinkInBounds(snk) && (c.readDisabled || ReadsProgress(c))
    ensures var t := Pump(SOCKET_SOURCE, snk, BUFFER_SIZE, c, w, buffer, budget);
            (t.ending.SourceStopped? ==> t.ending.sourceCode in {OperationResult.Completed, WouldBlock}) &&
            (t.ending == SourceStopped(WouldBlock) ==>
               !c.readDisabled && t.buffer == [] &&
               (t.delivered != [] ||
                (buffer == [] && t.source.readCount == c.readCount + 1 && c.readEvents(c.readCount).ReadBlocks?)))
    decreases budget, buffer == []
  {
    hide ReadsProgress;
    if budget > 0 {
      if buffer == [] {
        if !c.readDisabled { NextRead(c); }
        var got := SOCKET_SOURCE.read(c, BUFFER_SIZE);
        if !(SOCKET_SOURCE.stops(got.ec) || got.bytes == []) {
          SameReads(c, got.state);
          ReadingAdvances(snk, got.state, w, got.bytes, budget);
        }
      } else {
        var span := buffer[..Min(budget, |buffer|)];
        var took := snk.write(w, span, budget);
        if !(snk.stops(took.ec) || took.count == 0) {
          ReadingAdvances(snk, c, took.state, buffer[took.count..], budget - took.count);
        }
      }
    }
  }

  lemma {:induction false} ContentSuffices<H(!new)>(h: Handler<H>, pending: H -> string, app: H, c: Connection, buffer: string, budget: nat)
    requires InBounds(h) && SuppliesExactly(h, pending) && NeverStalls(h, pending)
    requires SourceInBounds(ContentSource(h)) && SinkInBounds(SOCKET_SINK)
    requires budget == |buffer| + |pending(app)|
    ensures !Pump(ContentSource(h), SOCKET_SINK, BUFFER_SIZE, app, c, buffer, budget).ending.SourceStopped?
    decreases budget, buffer == []
  {
    if budget > 0 {
      if buffer == [] {
        var got := h.readContent(app, BUFFER_SIZE);
        assert got.bytes != [] && !got.ec.isError;
        assert |pending(app)| == |got.bytes + pending(got.state)|;
        ContentSuffices(h, pending, got.state, c, got.bytes, budget);
      } else {
        var span := buffer[..Min(budget, |buffer|)];
        var took := SOCKET_SINK.write(c, span, budget);
        if !(SOCKET_SINK.stops(took.ec) || took.count == 0) {
          ContentSuffices(h, pending, app, took.state, buffer[took.count..], budget - took.count);
        }
      }
    }
  }

  lemma {:induction false} BodyIsTaken<H(!new)>(h: Handler<H>, pending: H -> string, c: Connection, l: Listener<H>, buffer: string, budget: nat)
    requires InBounds(h) && NeverStalls(h, pending) && SourceInBounds(SOCKET_SOURCE) && SinkInBounds(BodySink(h))
    ensures !Pump(SOCKET_SOURCE, BodySink(h), BUFFER_SIZE, c, l, buffer, budget).ending.SinkStopped?
    decreases budget, buffer == []
  {
    hide Transcript.Extend;
    if budget > 0 {
      if buffer == [] {
        var got := SOCKET_SOURCE.read(c, BUFFER_SIZE);
        if !(SOCKET_SOURCE.stops(got.ec) || got.bytes == []) {
          BodyIsTaken(h, pending, got.state, l, got.bytes, budget);
        }
      } else {
        var span := buffer[..Min(budget, |buffer|)];
        assert span != [];
        var took := BodySink(h).write(l, span, budget);
        BodyIsTaken(h, pending, c, took.state, buffer[took.count..], budget - took.count);
      }
    }
  }

  lemma CallKeepsSchedules<H(!new)>(h: Handler<H>, p: State<H>)
    requires InBounds(h)
    ensures var c, d := p.session.connection, CallPhase(h, p).0.session.connection;
            d.writeEvents == c.writeEvents && d.readEvents == c.readEvents
  {
    hide Pump;
    var c := p.session.connection;
    match p.phase
    case ReadHeader(parser, budget) =>
      HeaderCallbacksInBounds();
      InputKeepsSent(HEADER_SINK, c, parser, p.recv, budget);
    case ReadBody(left) =>
      BodyCallbacksInBounds(h);
      InputKeepsSent(BodySink(h), c, Listener(p.session.app, p.session.seen), p.recv, left);
    case WriteHeader(rest) =>
      WriteHeaderCallbacksInBounds();
      SinkKeepsUnread(SERIALIZER, rest, c, p.send, SIZE_MAX);
    case WriteBody(left) =>
      WriteBodyCallbacksInBounds(h);
      SinkKeepsUnread(ContentSource(h), p.session.app, c, p.send, left);
    case WaitForData =>
  }

  lemma RoundKeepsSchedules<H(!new)>(h: Handler<H>, p: State<H>)
    requires InBounds(h)
    ensures var c, d := p.session.connection, Advance(h, p).next.session.connection;
            d.writeEvents == c.writeEvents && d.readEvents == c.readEvents
  {
    hide CallPhase;
    CallKeepsSchedules(h, p);
  }

  // ---- One call ----

  /** What a session needs to be able to close. */
  ghost predicate Closing<H>(p: State<H>, pending: H -> string) {
    Delivering(p, pending) && Progressing(p.session.connection)
  }

  /** What there is to be done in the phase before the next block. */
  function Work<H>(p: State<H>, pending: H -> string): nat {
    if DirectionOf(p.phase) == Output then |Owed(p, pending)| else if p.recv != [] then 1 else 0
  }

  ghost function BlocksLeft<H>(p: State<H>): nat
    requires Progressing(p.session.connection)
  {
    var c := p.session.connection;
    if DirectionOf(p.phase) == Output then WritesLeft(c) else if c.readDisabled then 0 else ReadsLeft(c)
  }

  /** An event that blocks has used up input, or done some work, or it is one of the blocks before the next progress. */
  ghost predicate Nearer<H>(p: State<H>, q: State<H>, pending: H -> string)
    requires Progressing(p.session.connection) && Progressing(q.session.connection)
  {
    InputMeasure(q) < InputMeasure(p) ||
    (InputMeasure(q) == InputMeasure(p) && Rank(q.phase) == Rank(p.phase) &&
     (Work(q, pending) < Work(p, pending) || (Work(q, pending) == Work(p, pending) && BlocksLeft(q) < BlocksLeft(p))))
  }

  /** What is sent of the same responses is no longer owed. */
  lemma SentIsNotOwed<H>(p: State<H>, q: State<H>, pending: H -> string, delivered: string)
    requires Delivering(p, pending) && Delivering(q, pending) && q.session.seen == p.session.seen
    requires q.session.connection.sent == p.session.connection.sent + delivered
    ensures |Owed(q, pending)| + |delivered| == |Owed(p, pending)|
  {
    hide WellPlaced, Owed, AllResponses;
    assert |p.session.connection.sent + Owed(p, pending)| == |q.session.connection.sent + Owed(q, pending)|;
  }

  lemma BlockedWriteIsNearer<H>(p: State<H>, q: State<H>, pending: H -> string, delivered: string)
    requires Delivering(p, pending) && Delivering(q, pending) && q.session.seen == p.session.seen
    requires Progressing(p.session.connection) && Progressing(q.session.connection)
    requires DirectionOf(p.phase) == Output && Rank(q.phase) == Rank(p.phase) && InputMeasure(q) <= InputMeasure(p)
    requires q.session.connection.sent == p.session.connection.sent + delivered
    requires var c, d := p.session.connection, q.session.connection;
             d.writeEvents == c.writeEvents &&
             (delivered != [] || (d.writeCount == c.writeCount + 1 && c.writeEvents(c.writeCount).WriteBlocks?))
    ensures Nearer(p, q, pending)
  {
    hide Delivering, Owed;
    var c, d := p.session.connection, q.session.connection;
    SentIsNotOwed(p, q, pending, delivered);
    if delivered == [] { OneLess(Accepted(c), Accepted(d), c.writeCount); }
  }

  lemma SocketAppends<S(!new), E(!new)>(src: Source<S, E>, s: S, c: Connection, buffer: string, budget: nat)
    requires SourceInBounds(src) && SinkInBounds(SOCKET_SINK)
    ensures var t := Pump(src, SOCKET_SINK, BUFFER_SIZE, s, c, buffer, budget);
            t.sink.sent == c.sent + t.delivered
  {
    var taken := (x: Connection) => x.sent;
    SinkAccepts(src, SOCKET_SINK, BUFFER_SIZE, s, c, buffer, budget, taken);
  }

  /** In a session that is closing, a call of an output phase completes it, or gets nearer to that. */
  lemma OutputAdvances<H(!new)>(h: Handler<H>, p: State<H>, pending: H -> string)
    requires InBounds(h) && SuppliesExactly(h, pending) && NeverStalls(h, pending)
    requires Closing(p, pending) && DirectionOf(p.phase) == Output && Progressing(CallPhase(h, p).0.session.connection)
    ensures var (q, answer) := CallPhase(h, p);
            answer.status in {PhaseCompleted, Aborted, MoreDataNeeded} &&
            (answer.status == MoreDataNeeded ==> Nearer(p, q, pending))
  {
    hide Pump, SuppliesExactly, Nearer, WritesProgress, ReadsProgress, Delivering, NeverStalls;
    var c := p.session.connection;
    var (q, answer) := CallPhase(h, p);
    WritingKeepsInput(h, p);
    CallUsesInput(h, p);
    match p.phase
    case WriteHeader(rest) =>
      WriteHeaderCallbacksInBounds();
      WritingAdvances(SERIALIZER, rest, c, p.send, SIZE_MAX);
      SocketAppends(SERIALIZER, rest, c, p.send, SIZE_MAX);
      WriteHeaderCallDelivers(h, p, pending);
      var t := Pump(SERIALIZER, SOCKET_SINK, BUFFER_SIZE, rest, c, p.send, SIZE_MAX);
      if t.ending.SinkStopped? { BlockedWriteIsNearer(p, q, pending, t.delivered); }
    case WriteBody(left) =>
      WriteBodyCallbacksInBounds(h);
      WritingAdvances(ContentSource(h), p.session.app, c, p.send, left);
      SocketAppends(ContentSource(h), p.session.app, c, p.send, left);
      WriteBodyCallDelivers(h, p, pending);
      OwedIsLeft(p, pending);
      ContentSuffices(h, pending, p.session.app, c, p.send, left);
      var t := Pump(ContentSource(h), SOCKET_SINK, BUFFER_SIZE, p.session.app, c, p.send, left);
      if t.ending.SinkStopped? { BlockedWriteIsNearer(p, q, pending, t.delivered); }
  }

  lemma OwedIsLeft<H>(p: State<H>, pending: H -> string)
    requires Delivering(p, pending) && p.phase.WriteBody?
    ensures p.phase.left == |p.send| + |pending(p.session.app)|
  {
  }

  /** A blocked read leaves the receive buffer empty; what it had delivered is gone from the input. */
  lemma BlockedReadIsNearer<H>(p: State<H>, q: State<H>, pending: H -> string, delivered: nat)
    requires Progressing(p.session.connection) && Progressing(q.session.connection)
    requires DirectionOf(p.phase) == Input && Rank(q.phase) == Rank(p.phase) && q.recv == []
    requires InputLeft(q) + delivered == InputLeft(p)
    requires var c, d := p.session.connection, q.session.connection;
             !c.readDisabled && !d.readDisabled && d.readEvents == c.readEvents &&
             (delivered > 0 || (p.recv == [] && d.readCount == c.readCount + 1 && c.readEvents(c.readCount).ReadBlocks?))
    ensures Nearer(p, q, pending)
  {
    var c, d := p.session.connection, q.session.connection;
    if delivered == 0 { OneLess(Delivered(c), Delivered(d), c.readCount); }
  }

  /** What a call of an input phase comes to. */
  ghost predicate InputAdvanced<H>(p: State<H>, q: State<H>, answer: StateResponse, pending: H -> string)
    requires Progressing(p.session.connection) && Progressing(q.session.connection)
  {
    answer.status in {PhaseCompleted, ClientErrorDetected, ConnectionClosed, MoreDataNeeded} &&
    (answer.status == MoreDataNeeded ==> Nearer(p, q, pending))
  }

  lemma HeaderAdvances<H(!new)>(h: Handler<H>, p: State<H>, pending: H -> string)
    requires InBounds(h) && Progressing(p.session.connection) && p.phase.ReadHeader?
    requires Progressing(CallPhase(h, p).0.session.connection)
    ensures InputAdvanced(p, CallPhase(h, p).0, CallPhase(h, p).1, pending)
  {
    hide Pump, Nearer, WritesProgress, ReadsProgress;
    var ReadHeader(parser, budget) := p.phase;
    var c := p.session.connection;
    HeaderCallbacksInBounds();
    CallKeepsReading(h, p);
    CallKeepsSchedules(h, p);
    HeaderNeverStalls(c, parser, p.recv, budget);
    ReadingAdvances(HEADER_SINK, c, parser, p.recv, budget);
    SocketGives(HEADER_SINK, c, parser, p.recv, budget);
    var t := Pump(SOCKET_SOURCE, HEADER_SINK, BUFFER_SIZE, c, parser, p.recv, budget);
    assert |p.recv + c.unread| == |t.delivered + (t.buffer + t.source.unread)|;
    if t.ending == SourceStopped(WouldBlock) { BlockedReadIsNearer(p, CallPhase(h, p).0, pending, |t.delivered|); }
  }

  lemma BodyAdvances<H(!new)>(h: Handler<H>, p: State<H>, pending: H -> string)
    requires InBounds(h) && NeverStalls(h, pending) && Progressing(p.session.connection) && p.phase.ReadBody?
    requires Progressing(CallPhase(h, p).0.session.connection)
    ensures InputAdvanced(p, CallPhase(h, p).0, CallPhase(h, p).1, pending)
  {
    hide Pump, Nearer, WritesProgress, ReadsProgress, NeverStalls;
    var left, c, l := p.phase.left, p.session.connection, Listener(p.session.app, p.session.seen);
    BodyCallbacksInBounds(h);
    CallKeepsReading(h, p);
    CallKeepsSchedules(h, p);
    BodyIsTaken(h, pending, c, l, p.recv, left);
    ReadingAdvances(BodySink(h), c, l, p.recv, left);
    SocketGives(BodySink(h), c, l, p.recv, left);
    var t := Pump(SOCKET_SOURCE, BodySink(h), BUFFER_SIZE, c, l, p.recv, left);
    assert |p.recv + c.unread| == |t.delivered + (t.buffer + t.source.unread)|;
    if t.ending == SourceStopped(WouldBlock) { BlockedReadIsNearer(p, CallPhase(h, p).0, pending, |t.delivered|); }
  }

  lemma WaitAdvances<H(!new)>(h: Handler<H>, p: State<H>, pending: H -> string)
    requires InBounds(h) && Progressing(p.session.connection) && p.phase.WaitForData?
    requires Progressing(CallPhase(h, p).0.session.connection)
    ensures InputAdvanced(p, CallPhase(h, p).0, CallPhase(h, p).1, pending)
  {
    hide Nearer, WritesProgress, ReadsProgress;
    var c := p.session.connection;
    if !c.readDisabled { NextRead(c); }
    if CallPhase(h, p).1.status == MoreDataNeeded { BlockedReadIsNearer(p, CallPhase(h, p).0, pending, 0); }
  }

  // ---- Rounds and events ----

  /** What a round of a closing session leads to. */
  ghost predicate Advances<H>(p: State<H>, r: Round<H>, pending: H -> string)
    requires Progressing(p.session.connection) && Progressing(r.next.session.connection)
  {
    match r
    case Go(_) => true
    case Done(q, status) =>
      status == ProcessorCompleted || (status == ProcessorAborted && LatestIsOversized(q, pending)) ||
      (status == ProcessorMoreDataNeeded && Nearer(p, q, pending))
  }

  lemma RoundKeepsClosing<H(!new)>(h: Handler<H>, p: State<H>, pending: H -> string)
    requires InBounds(h) && SuppliesExactly(h, pending) && NeverStalls(h, pending) && Closing(p, pending)
    ensures Closing(Advance(h, p).next, pending) && Advances(p, Advance(h, p), pending)
  {
    hide CallPhase, Delivering, SuppliesExactly, NeverStalls, Nearer, WritesProgress, ReadsProgress, LatestIsOversized;
    RoundKeepsDelivering(h, p, pending);
    CallKeepsReading(h, p);
    CallKeepsSchedules(h, p);
    SameProgress(p.session.connection, CallPhase(h, p).0.session.connection);
    SameProgress(p.session.connection, Advance(h, p).next.session.connection);
    match p.phase
    case ReadHeader(_, _) => HeaderAdvances(h, p, pending);
    case ReadBody(_) => BodyAdvances(h, p, pending);
    case WriteHeader(_) => OutputAdvances(h, p, pending);
    case WriteBody(_) => OutputAdvances(h, p, pending);
    case WaitForData => WaitAdvances(h, p, pending);
  }

  /** How a session ends that closes: regularly, or with a response whose size 64 bits cannot express. */
  ghost predicate Closes<H(!new)>(h: Handler<H>, p: State<H>, events: seq<Event>, pending: H -> string)
    requires InBounds(h)
  {
    OnlyReady(events) &&
    (RunStatus(h, p, events) == ProcessorCompleted ||
     (RunStatus(h, p, events) == ProcessorAborted && LatestIsOversized(Run(h, p, events), pending)))
  }

  /** As long as the socket progresses, a number of ready events closes every session. */
  lemma {:induction false} SessionCloses<H(!new)>(h: Handler<H>, p: State<H>, pending: H -> string) returns (events: seq<Event>)
    requires InBounds(h) && SuppliesExactly(h, pending) && NeverStalls(h, pending) && Closing(p, pending)
    ensures Closes(h, p, events, pending)
    decreases InputMeasure(p), Rank(p.phase), Work(p, pending), BlocksLeft(p)
  {
    hide Advance, Delivering, SuppliesExactly, NeverStalls, Progressing, Work, LatestIsOversized;
    RoundsDescend(h, p);
    RoundKeepsClosing(h, p, pending);
    match Advance(h, p)
    case Go(q) => events := SessionCloses(h, q, pending);
    case Done(q, status) =>
      events := [];
      if status == ProcessorMoreDataNeeded { events := SessionCloses(h, q, pending); }
      events := [Ready] + events;
      assert events[1..] + [] == events[1..];
  }

  /** After the stop it is enough that writes progress. */
  lemma ClosesAfterStop<H(!new)>(h: Handler<H>, p: State<H>, pending: H -> string) returns (events: seq<Event>)
    requires InBounds(h) && SuppliesExactly(h, pending) && NeverStalls(h, pending)
    requires Delivering(p, pending) && p.session.connection.readDisabled && WritesProgress(p.session.connection)
    ensures Closes(h, p, events, pending)
  {
    hide Delivering, SuppliesExactly, NeverStalls, WritesProgress, Closes;
    events := SessionCloses(h, p, pending);
  }

  /** A run keeps what a session needs to be able to close. */
  lemma RunKeepsClosing<H(!new)>(h: Handler<H>, pending: H -> string, connection: Connection, app: H, events: seq<Event>)
    requires InBounds(h) && SuppliesExactly(h, pending) && connection.sent == ""
    ensures var p := Run(h, Start(connection, app), events);
            var d := p.session.connection;
            Delivering(p, pending) && d.writeEvents == connection.writeEvents && d.readEvents == connection.readEvents &&
            (connection.readDisabled ==> d.readDisabled)
  {
    hide Advance, Delivering, SuppliesExactly, RunStatus;
    RunKeepsDelivering(h, pending, connection, app, events);
    var inv := (q: State<H>) =>
      var d := q.session.connection;
      d.writeEvents == connection.writeEvents && d.readEvents == connection.readEvents &&
      (connection.readDisabled ==> d.readDisabled);
    forall q | inv(q) ensures inv(Advance(h, q).next) {
      RoundKeepsSchedules(h, q);
      if q.session.connection.readDisabled { StoppedStaysStopped(h, q); }
    }
    RunKeeps(h, Start(connection, app), events, inv);
  }

  /** So every run, of any events, can be completed by ready events, as long as the socket progresses. */
  lemma RunCloses<H(!new)>(h: Handler<H>, pending: H -> string, connection: Connection, app: H, events: seq<Event>)
    returns (more: seq<Event>)
    requires InBounds(h) && SuppliesExactly(h, pending) && NeverStalls(h, pending)
    requires connection.sent == "" && Progressing(connection)
    ensures Closes(h, Run(h, Start(connection, app), events), more, pending)
  {
    hide Run, Delivering, SuppliesExactly, NeverStalls, Progressing, Closes;
    RunKeepsClosing(h, pending, connection, app, events);
    var p := Run(h, Start(connection, app), events);
    SameProgress(connection, p.session.connection);
    more := SessionCloses(h, p, pending);
  }

  /** Every run in which reading has been stopped can be completed by ready events, if writes progress. */
  lemma StoppedRunCloses<H(!new)>(h: Handler<H>, pending: H -> string, connection: Connection, app: H, events: seq<Event>)
    returns (more: seq<Event>)
    requires InBounds(h) && SuppliesExactly(h, pending) && NeverStalls(h, pending)
    requires connection.sent == "" && WritesProgress(connection)
    requires Run(h, Start(connection, app), events).session.connection.readDisabled
    ensures Closes(h, Run(h, Start(connection, app), events), more, pending)
  {
    hide Run, Delivering, SuppliesExactly, NeverStalls, WritesProgress, Closes;
    RunKeepsClosing(h, pending, connection, app, events);
    var p := Run(h, Start(connection, app), events);
    SameWrites(connection, p.session.connection);
    more := ClosesAfterStop(h, p, pending);
  }
}
