/**
 Sessions that end regularly: nothing that the client sent is left over. If no read has failed
 and no write has taken nothing, the server ends a session only where it waits for the next
 request, and only once every request of the stream has been handed over.
 */
module Completion {
  import opened IoAdapter
  import opened Session
  import opened Phases
  import opened Processor
  import opened Framing
  import opened FramingRuns
  import opened Responses
  import opened Progress

  /** No read fails and no write takes nothing; they may block. */
  ghost predicate NoFailures(c: Connection) {
    (forall i :: !c.readEvents(i).ReadFails?) &&
    (forall i :: c.writeEvents(i).Accept? ==> c.writeEvents(i).most > 0)
  }

  /** A write only stops a transfer because it blocks or fails. */
  lemma {:induction false} WritesTakeSome<S(!new), E(!new)>(src: Source<S, E>, s: S, c: Connection, buffer: string, budget: nat)
    requires SourceInBounds(src) && SinkInBounds(SOCKET_SINK) && NoFailures(c)
    ensures Pump(src, SOCKET_SINK, BUFFER_SIZE, s, c, buffer, budget).ending != SinkStopped(OperationResult.Completed)
    decreases budget, buffer == []
  {
    if budget > 0 {
      if buffer == [] {
        var got := src.read(s, BUFFER_SIZE);
        if !(src.stops(got.ec) || got.bytes == []) {
          WritesTakeSome(src, got.state, c, got.bytes, budget);
        }
      } else {
        var span := buffer[..Min(budget, |buffer|)];
        var took := SOCKET_SINK.write(c, span, budget);
        assert c.writeEvents(c.writeCount).Accept? ==> c.writeEvents(c.writeCount).most > 0;
        if !(SOCKET_SINK.stops(took.ec) || took.count == 0) {
          WritesTakeSome(src, s, took.state, buffer[took.count..], budget - took.count);
        }
      }
    }
  }

  /** A session only ends regularly where it waits for the next request. */
  lemma CompletesWaiting<H(!new)>(h: Handler<H>, p: State<H>)
    requires InBounds(h) && NoFailures(p.session.connection)
    requires Advance(h, p).Done? && Advance(h, p).status == ProcessorCompleted
    ensures p.phase.WaitForData? && Advance(h, p).next.phase.WaitForData?
  {
    hide Pump, NoFailures;
    var c := p.session.connection;
    match p.phase
    case ReadHeader(_, _) => HeaderCallbacksInBounds();
    case ReadBody(_) => BodyCallbacksInBounds(h);
    case WriteHeader(rest) =>
      WriteHeaderCallbacksInBounds();
      WritesTakeSome(SERIALIZER, rest, c, p.send, SIZE_MAX);
    case WriteBody(left) =>
      WriteBodyCallbacksInBounds(h);
      WritesTakeSome(ContentSource(h), p.session.app, c, p.send, left);
    case WaitForData =>
  }

  lemma RoundKeepsFailureFree<H(!new)>(h: Handler<H>, p: State<H>)
    requires InBounds(h) && NoFailures(p.session.connection)
    ensures NoFailures(Advance(h, p).next.session.connection)
  {
    hide Advance;
    RoundKeepsSchedules(h, p);
  }

  /**
   All that is known of a session that has ended regularly, by what the handler objected to:
   what it has handed over, to the last request.
   */
  ghost predicate AllSeenTo<H>(stream: string, p: State<H>, v: Objections) {
    var split, seen := SplitObjected(stream, v, 0), p.session.seen;
    p.phase.WaitForData? && seen.requests == split.requests + LateObjected(seen, v, split.asked) &&
    (if seen.errors == [] then split.end == InHeader && split.rest == "" && seen.leftovers == []
     else seen.errors[0] == VerdictOf(split.end) && seen.leftovers != [] && seen.leftovers[0] <= split.rest)
  }

  lemma CompletedHasSeenAll<H(!new)>(h: Handler<H>, stream: string, p: State<H>, v: Objections)
    requires InBounds(h) && TakesContent(h) && FaithfulTo(stream, p, v) && NoFailures(p.session.connection)
    requires Agrees(v, Advance(h, p).next.session.seen)
    requires Advance(h, p).Done? && Advance(h, p).status == ProcessorCompleted
    ensures AllSeenTo(stream, Advance(h, p).next, v)
  {
    hide TakesContent, SplitObjected, Advance, SplitFrom, ServedObjected, Agrees;
    CompletesWaiting(h, p);
    RoundKeepsFaithfulTo(h, stream, p, v);
    var c, q := p.session.connection, Advance(h, p).next;
    assert !c.readEvents(c.readCount).ReadFails?;
    ClosesOnlyAtTheEnd(h, SplitFrom(p, v).After(p.session.seen.requests), p, v);
    if c.readDisabled {
      StoppedStaysStopped(h, p);
      NothingIsServed(q, v);
    } else {
      RoundKeepsReading(h, p);
    }
  }

  lemma RoundKeepsReading<H(!new)>(h: Handler<H>, p: State<H>)
    requires InBounds(h) && Advance(h, p).Done?
    ensures Advance(h, p).next.session.connection.readDisabled == p.session.connection.readDisabled
  {
    hide CallPhase;
    CallKeepsReading(h, p);
  }

  lemma NothingIsServed<H>(p: State<H>, v: Objections)
    requires SplitFrom(p, v).After(p.session.seen.requests) == Split(p.session.seen.requests, InHeader, "", |p.session.seen.answers|)
    ensures p.session.seen.requests + ServedFrom(p, v) == p.session.seen.requests
  {
    hide SplitFrom;
  }

  /** The invariant of a run with these objections, and what its regular end means. */
  lemma RoundCompletes<H(!new)>(h: Handler<H>, stream: string, p: State<H>, v: Objections)
    requires InBounds(h) && TakesContent(h) && NoFailures(p.session.connection)
    requires Agrees(v, p.session.seen) ==> FaithfulTo(stream, p, v)
    ensures var r := Advance(h, p);
            NoFailures(r.next.session.connection) && (Agrees(v, r.next.session.seen) ==> FaithfulTo(stream, r.next, v)) &&
            (r.Done? && r.status == ProcessorCompleted && Agrees(v, r.next.session.seen) ==> AllSeenTo(stream, r.next, v))
  {
    hide FaithfulTo, TakesContent, Advance, AllSeenTo, NoFailures, Agrees;
    var r := Advance(h, p);
    RoundKeepsFailureFree(h, p);
    RoundKeepsFaithfulIfAgreed(h, stream, p, v);
    RoundGrows(h, p);
    if r.Done? && r.status == ProcessorCompleted && Agrees(v, r.next.session.seen) {
      AgreedBefore(v, p.session.seen, r.next.session.seen);
      CompletedHasSeenAll(h, stream, p, v);
    }
  }

  /**
   Over every ready run of a handler that takes all content, with any fragmentation and by what
   it objected to: a session that ends regularly has handed over the requests of the stream, then
   exactly those that the leftover of the first error is served as, and no other; and if no
   error was reported, the stream ends after the last request.
   */
  lemma CompletedRunByObjections<H(!new)>(h: Handler<H>, connection: Connection, app: H, events: seq<Event>, v: Objections)
    requires InBounds(h) && TakesContent(h) && OnlyReady(events)
    requires !connection.readDisabled && NoFailures(connection)
    requires Agrees(v, Run(h, Start(connection, app), events).session.seen)
    ensures RunStatus(h, Start(connection, app), events) == ProcessorCompleted ==>
              AllSeenTo(connection.unread, Run(h, Start(connection, app), events), v)
  {
    hide FaithfulTo, TakesContent, Advance, AllSeenTo, NoFailures, Agrees;
    var stream := connection.unread;
    StartIsFaithfulTo(connection, app, v);
    var inv := (q: State<H>) => NoFailures(q.session.connection) && (Agrees(v, q.session.seen) ==> FaithfulTo(stream, q, v));
    var post := (q: State<H>, status: ProcessorStatus) =>
      status == ProcessorCompleted && Agrees(v, q.session.seen) ==> AllSeenTo(stream, q, v);
    forall q | inv(q)
      ensures inv(Advance(h, q).next) && (Advance(h, q).Done? ==> post(Advance(h, q).next, Advance(h, q).status))
    {
      RoundCompletes(h, stream, q, v);
    }
    RunEnds(h, Start(connection, app), events, inv, post);
  }

  /** The same of a handler that refuses nothing: it depends on the stream and the leftover only. */
  ghost predicate AllSeen<H>(stream: string, p: State<H>) {
    var split, seen := SplitStream(stream), p.session.seen;
    p.phase.WaitForData? && seen.requests == split.requests + ServedLate(seen) &&
    (if seen.errors == [] then split.end == InHeader && split.rest == "" && seen.leftovers == []
     else seen.errors[0] == VerdictOf(split.end) && seen.leftovers != [] && seen.leftovers[0] <= split.rest)
  }

  lemma CompletedRunHasSeenAll<H(!new)>(h: Handler<H>, connection: Connection, app: H, events: seq<Event>)
    requires InBounds(h) && NeverRefuses(h) && OnlyReady(events)
    requires !connection.readDisabled && NoFailures(connection)
    ensures RunStatus(h, Start(connection, app), events) == ProcessorCompleted ==>
              AllSeen(connection.unread, Run(h, Start(connection, app), events))
  {
    hide FaithfulTo, TakesContent, NeverObjects, NoFailures, Agrees, Run, RunStatus, LateObjected, ServedLate, SplitObjected;
    StartIsFaithful(connection, app);
    ReadyRunKeepsFaithful(h, connection.unread, Start(connection, app), events);
    CompletedRunByObjections(h, connection, app, events, NO_OBJECTIONS);
    LateWithoutObjections(Run(h, Start(connection, app), events).session.seen, SplitStream(connection.unread).asked);
  }

  /**
   The exact effect of fragmentation: a session that ends regularly has been handed the requests
   of the stream and no other if and only if the leftover of its first error is served as
   nothing, and two such sessions over one stream have been handed the same requests if and only
   if their leftovers are served as the same.
   */
  lemma FragmentationShowsExactly<H(!new)>(h: Handler<H>, app: H, c: Connection, d: Connection, c_events: seq<Event>, d_events: seq<Event>)
    requires InBounds(h) && NeverRefuses(h) && OnlyReady(c_events) && OnlyReady(d_events)
    requires c.unread == d.unread && !c.readDisabled && !d.readDisabled && NoFailures(c) && NoFailures(d)
    requires RunStatus(h, Start(c, app), c_events) == ProcessorCompleted
    requires RunStatus(h, Start(d, app), d_events) == ProcessorCompleted
    ensures var a := Run(h, Start(c, app), c_events).session.seen;
            var b := Run(h, Start(d, app), d_events).session.seen;
            (a.requests == SplitStream(c.unread).requests <==> ServedLate(a) == []) &&
            (a.requests == b.requests <==> ServedLate(a) == ServedLate(b))
  {
    hide SplitStream, NeverRefuses, NoFailures, Run, RunStatus, ServedLate;
    CompletedRunHasSeenAll(h, c, app, c_events);
    CompletedRunHasSeenAll(h, d, app, d_events);
    var a := Run(h, Start(c, app), c_events).session.seen;
    var b := Run(h, Start(d, app), d_events).session.seen;
    var requests := SplitStream(c.unread).requests;
    SameTail(requests, ServedLate(a), ServedLate(b));
    SameTail(requests, ServedLate(a), []);
    NoRequests(requests);
  }

  lemma SameTail(front: seq<Request>, a: seq<Request>, b: seq<Request>)
    ensures front + a == front + b <==> a == b
  {
    assert a == (front + a)[|front|..];
    assert b == (front + b)[|front|..];
  }

  // ---- Every session can be completed ----

  lemma ProgressHasNoFailures(c: Connection)
    requires Progressing(c) && !c.readDisabled
    ensures NoFailures(c)
  {
  }

  /**
   As long as the socket progresses, and the handler neither refuses nor puts off anything, a
   number of ready events makes every session serve the whole of its stream and end; the only
   other end is a response whose size 64 bits cannot express.
   */
  lemma ProgressServesAll<H(!new)>(h: Handler<H>, pending: H -> string, connection: Connection, app: H) returns (events: seq<Event>)
    requires InBounds(h) && NeverRefuses(h) && SuppliesExactly(h, pending) && NeverStalls(h, pending)
    requires connection.sent == "" && Progressing(connection) && !connection.readDisabled
    ensures Closes(h, Start(connection, app), events, pending)
    ensures RunStatus(h, Start(connection, app), events) == ProcessorCompleted ==>
              AllSeen(connection.unread, Run(h, Start(connection, app), events))
  {
    hide NeverRefuses, SuppliesExactly, NeverStalls, Progressing, NoFailures, AllSeen;
    events := RunCloses(h, pending, connection, app, []);
    ProgressHasNoFailures(connection);
    CompletedRunHasSeenAll(h, connection, app, events);
  }
}
