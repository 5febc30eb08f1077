/**
 After reading has been stopped: nothing more is taken from the socket, and only what is in the
 receive buffer can lead to further responses.
 */
module Stopping {
  import opened IoAdapter
  import opened Session
  import opened Phases
  import opened Processor
  import opened FramingRuns
  import opened Responses

  // ---- A bound on the responses ----

  /** How many more responses can be started once reading is disabled. */
  function ResponsesLeft<H>(p: State<H>): nat {
    match p.phase
    case ReadHeader(_, _) => if WillConsume(p) then |p.recv| else |p.recv| + 1
    case ReadBody(_) => |p.recv| + 1
    case _ => |p.recv|
  }

  /** A call that reads a header takes at least one octet of the buffer, if there is one. */
  lemma StoppedCallUsesBuffer<H(!new)>(h: Handler<H>, p: State<H>)
    requires InBounds(h) && p.session.connection.readDisabled
    ensures |CallPhase(h, p).0.recv| <= if WillConsume(p) then |p.recv| - 1 else |p.recv|
  {
    hide CallPhase;
    StoppedCall(h, p);
    CallUsesInput(h, p);
  }

  lemma RoundStartsFewResponses<H(!new)>(h: Handler<H>, p: State<H>)
    requires InBounds(h) && p.session.connection.readDisabled
    ensures var q := Advance(h, p).next;
            |q.session.seen.responses| + ResponsesLeft(q) <= |p.session.seen.responses| + ResponsesLeft(p)
  {
    hide CallPhase;
    StoppedCallUsesBuffer(h, p);
    CallUsesInput(h, p);
    CallGrows(h, p);
  }

  /** What a run keeps from a state in which reading is already disabled. */
  ghost predicate StoppedSince<H>(p: State<H>, q: State<H>) {
    var c, d := p.session.connection, q.session.connection;
    d.readDisabled && d.unread == c.unread && d.readCount == c.readCount &&
    |q.session.seen.responses| + ResponsesLeft(q) <= |p.session.seen.responses| + ResponsesLeft(p)
  }

  lemma RoundKeepsStopped<H(!new)>(h: Handler<H>, p: State<H>, q: State<H>)
    requires InBounds(h) && StoppedSince(p, q)
    ensures StoppedSince(p, Advance(h, q).next)
  {
    hide Advance, ResponsesLeft;
    StoppedStaysStopped(h, q);
    RoundStartsFewResponses(h, q);
  }

  /** With reading disabled, an event can only leave the session in a body or an output phase. */
  predicate Resting<H>(p: State<H>) {
    !p.phase.ReadHeader? && !p.phase.WaitForData?
  }

  lemma {:induction false} DisabledReadEnds<W(!new), F(!new)>(snk: Sink<W, F>, c: Connection, w: W, buffer: string, budget: nat)
    requires SourceInBounds(SOCKET_SOURCE) && SinkInBounds(snk) && c.readDisabled
    ensures var t := Pump(SOCKET_SOURCE, snk, BUFFER_SIZE, c, w, buffer, budget);
            t.ending.SourceStopped? ==> t.ending.sourceCode == OperationResult.Completed
    decreases budget, buffer == []
  {
    if budget > 0 && buffer != [] {
      var span := buffer[..Min(budget, |buffer|)];
      var took := snk.write(w, span, budget);
      if !(snk.stops(took.ec) || took.count == 0) {
        DisabledReadEnds(snk, c, took.state, buffer[took.count..], budget - took.count);
      }
    }
  }

  lemma StoppedRoundRests<H(!new)>(h: Handler<H>, p: State<H>)
    requires InBounds(h) && p.session.connection.readDisabled
    ensures Advance(h, p).Done? && Advance(h, p).status == ProcessorMoreDataNeeded ==> Resting(Advance(h, p).next)
    ensures p.phase.ReadHeader? ==> Advance(h, p).Go?
    ensures p.phase.WaitForData? && Advance(h, p).Done? ==> Advance(h, p).status == ProcessorCompleted
  {
    hide Pump;
    if p.phase.ReadHeader? {
      var ReadHeader(parser, budget) := p.phase;
      HeaderCallbacksInBounds();
      DisabledReadEnds(HEADER_SINK, p.session.connection, parser, p.recv, budget);
      HeaderNeverStalls(p.session.connection, parser, p.recv, budget);
    }
    if p.phase.ReadBody? { BodyCallbacksInBounds(h); }
  }

  lemma {:induction false} ReadyKeepsStopped<H(!new)>(h: Handler<H>, p: State<H>, q: State<H>)
    requires InBounds(h) && StoppedSince(p, q)
    ensures var (r, result) := SocketIsReady(h, q);
            StoppedSince(p, r) && (result.status == ProcessorMoreDataNeeded ==> Resting(r))
    decreases InputMeasure(q), Rank(q.phase)
  {
    hide Advance, StoppedSince;
    RoundsDescend(h, q);
    assert q.session.connection.readDisabled by { StoppedIsDisabled(p, q); }
    StoppedRoundRests(h, q);
    RoundKeepsStopped(h, p, q);
    match Advance(h, q)
    case Go(r) => ReadyKeepsStopped(h, p, r);
    case Done(_, _) =>
  }

  lemma StoppedIsDisabled<H>(p: State<H>, q: State<H>)
    requires StoppedSince(p, q)
    ensures q.session.connection.readDisabled
  {
  }

  lemma {:induction false} RunKeepsStopped<H(!new)>(h: Handler<H>, p: State<H>, q: State<H>, events: seq<Event>)
    requires InBounds(h) && StoppedSince(p, q) && Resting(q)
    ensures StoppedSince(p, Run(h, q, events))
    decreases events
  {
    if events != [] {
      if events[0] == Ready { ReadyKeepsStopped(h, p, q); }
      var (r, result) := Handle(h, q, events[0]);
      if !IsTerminated(result.status) { RunKeepsStopped(h, p, r, events[1..]); }
    }
  }

  /**
   Once a client error or a time-out has stopped the reading, no run makes another call on
   the socket to read; the error response starts, and every further response is paid for by
   an octet that was in the receive buffer.
   */
  lemma NothingIsReadAfterStop<H(!new)>(h: Handler<H>, p: State<H>, result: FinalizeResult, events: seq<Event>)
    requires InBounds(h)
    ensures var q := Run(h, Reject(h, p, result), events);
            q.session.connection.unread == p.session.connection.unread &&
            q.session.connection.readCount == p.session.connection.readCount &&
            |q.session.seen.responses| <= |p.session.seen.responses| + 1 + |p.recv|
  {
    RunKeepsStopped(h, Reject(h, p, result), Reject(h, p, result), events);
  }
}
