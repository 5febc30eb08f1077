/**
 Where the engine and the event monitor meet: the handler that turns the outcome of a session
 event into a change of interest or a removal, and the agreement between the two sides.
 */
module ServiceRegistry {
  import opened IoAdapter
  import opened Session
  import opened Phases
  import opened Processor
  import opened EventMonitor
  import opened MonitorRuns
  import Server

  /** The interest that a direction maps to. */
  function InterestOf(direction: Direction): ListenOn {
    match direction
    case Input => ReadIsPossible
    case Output => WriteIsPossible
  }

  /** What a connection asks of the monitor after an event, and its own interest from then on. */
  function Finalize(fd: Fd, events: ListenOn, result: ProcessResult): (ListenOn, seq<Action>) {
    if IsTerminated(result.status) then (events, [Remove(fd)])
    else if InterestOf(result.direction) != events then
      (InterestOf(result.direction), [Modify(fd, InterestOf(result.direction))])
    else (events, [])
  }

  function At(actions: seq<Action>, time: int): seq<Timed> {
    seq(|actions|, i requires 0 <= i < |actions| => Timed(actions[i], time))
  }

  /** A session waits until writing is possible while it has a response to write, and to read otherwise. */
  predicate Writing<H>(p: State<H>) {
    p.phase.WriteHeader? || p.phase.WriteBody?
  }

  /** Phase, stored direction, the handler's own interest and the monitor's all say the same. */
  ghost predicate Agree<H>(p: State<H>, events: ListenOn, m: Monitor, fd: Fd) {
    p.direction == (if Writing(p) then Output else Input) &&
    events == (if Writing(p) then WriteIsPossible else ReadIsPossible) &&
    fd in m.interest && m.interest[fd] == events
  }

  // ---- Directions follow phases ----

  lemma RoundKeepsDirection<H(!new)>(h: Handler<H>, p: State<H>)
    requires InBounds(h) && p.direction == DirectionOf(p.phase)
    ensures Advance(h, p).next.direction == DirectionOf(Advance(h, p).next.phase)
  {
    hide Pump;
    CallKeepsPhaseKind(h, p);
  }

  lemma CallKeepsPhaseKind<H(!new)>(h: Handler<H>, p: State<H>)
    requires InBounds(h)
    ensures DirectionOf(CallPhase(h, p).0.phase) == DirectionOf(p.phase) && CallPhase(h, p).0.direction == p.direction
  {
    hide Pump;
    match p.phase
    case ReadHeader(_, _) => HeaderCallbacksInBounds();
    case ReadBody(_) => BodyCallbacksInBounds(h);
    case WriteHeader(_) => WriteHeaderCallbacksInBounds();
    case WriteBody(_) => WriteBodyCallbacksInBounds(h);
    case WaitForData =>
  }

  /** After any event the answer, the stored direction and the phase agree. */
  lemma HandleKeepsDirection<H(!new)>(h: Handler<H>, p: State<H>, event: Event)
    requires InBounds(h) && p.direction == DirectionOf(p.phase)
    ensures var (q, result) := Handle(h, p, event);
            q.direction == DirectionOf(q.phase) == result.direction
  {
    hide Advance;
    if event == Ready {
      var inv := (q: State<H>) => q.direction == DirectionOf(q.phase);
      forall q | inv(q) ensures inv(Advance(h, q).next) { RoundKeepsDirection(h, q); }
      ReadyKeeps(h, p, inv);
      ReadyAnswersDirection(h, p);
    }
  }

  lemma {:induction false} ReadyAnswersDirection<H(!new)>(h: Handler<H>, p: State<H>)
    requires InBounds(h)
    ensures SocketIsReady(h, p).1.direction == SocketIsReady(h, p).0.direction
    decreases InputMeasure(p), Rank(p.phase)
  {
    hide Advance;
    RoundsDescend(h, p);
    match Advance(h, p)
    case Go(q) => ReadyAnswersDirection(h, q);
    case Done(_, _) =>
  }

  // ---- Agreement ----

  /** A connection just accepted waits to read, and so does the monitor for it. */
  lemma AcceptedAgrees<H>(connection: Connection, app: H, m: Monitor, fd: Fd, now: int)
    ensures Agree(Start(connection, app), ReadIsPossible, Perform(m, Timed(Add(fd, ReadIsPossible), now)), fd)
  {
  }

  /**
   Every event that does not end the session, ready or idle, with or without a client error,
   leaves phase, stored and returned direction, handler and monitor in agreement. One that
   ends it asks for the removal of this descriptor, once. No event does more than that.
   */
  lemma EventKeepsAgreement<H(!new)>(h: Handler<H>, p: State<H>, event: Event, events: ListenOn, m: Monitor, fd: Fd, now: int)
    requires InBounds(h) && Agree(p, events, m, fd)
    ensures var (q, result) := Handle(h, p, event);
            var (events', actions) := Finalize(fd, events, result);
            var m' := PerformAll(m, At(actions, now));
            RemovesItself(fd, At(actions, now)) && m'.clearRequested == m.clearRequested &&
            (if result.status != ProcessorMoreDataNeeded then m'.toRemove == m.toRemove + [fd] && m'.interest == m.interest
             else Agree(q, events', m', fd) && result.direction == q.direction && m'.toRemove == m.toRemove)
    ensures var (q, result) := Handle(h, p, event);
            Finalize(fd, events, result).1 == [] <==>
              result.status == ProcessorMoreDataNeeded && (Writing(q) <==> Writing(p))
  {
    hide Handle;
    HandleKeepsDirection(h, p, event);
    var (q, result) := Handle(h, p, event);
    var (events', actions) := Finalize(fd, events, result);
    if actions != [] {
      assert At(actions, now) == [Timed(actions[0], now)];
      OneAction(m, Timed(actions[0], now));
    }
  }

  // ---- Connections that ask for their removal twice ----

  /** Found idle, a connection asks for its removal exactly if its session is in an output phase. */
  lemma IdleAsks<H>(h: Handler<H>, p: State<H>, events: ListenOn, fd: Fd, now: int)
    ensures Asked(At(Finalize(fd, events, SocketIsIdle(h, p).1).1, now)) == if DirectionOf(p.phase) == Output then [fd] else []
  {
    hide Reject;
    var actions := Finalize(fd, events, SocketIsIdle(h, p).1).1;
    if actions != [] { AskedAt(actions[0], now); }
  }

  lemma AskedAt(action: Action, now: int)
    ensures Asked(At([action], now)) == if action.Remove? then [action.fd] else []
  {
    assert At([action], now) == [Timed(action, now)];
    assert [Timed(action, now)][1..] == [];
  }

  lemma ResultAsks(fd: Fd, events: ListenOn, result: ProcessResult, now: int)
    ensures Asked(At(Finalize(fd, events, result).1, now)) == if IsTerminated(result.status) then [fd] else []
  {
    var actions := Finalize(fd, events, result).1;
    if actions != [] { AskedAt(actions[0], now); }
  }

  /** Among polite ready callbacks, only that of a descriptor itself asks for its removal. */
  lemma {:induction false} AskedByOwn(calls: seq<Call>, i: nat)
    requires i < |calls| && DistinctFds(calls) && forall k :: 0 <= k < |calls| ==> RemovesItself(calls[k].fd, calls[k].actions)
    ensures calls[i].fd in AskedBy(calls) <==> Asked(calls[i].actions) != []
    decreases calls
  {
    hide Asked;
    var rest := calls[1..];
    AskedOnce(rest);
    FdsOfHead(calls);
    if i > 0 { AskedByOwn(rest, i - 1); } else { assert calls[0].fd !in FdsOf(rest); }
  }

  /**
   Which connections make the flush fail: one that is ready and then found idle in the same
   pass asks twice exactly if its ready event has ended the session in an output phase. One
   that ends in an input phase is sent a time-out response instead.
   */
  lemma ConnectionAsksTwice<H(!new)>(h: Handler<H>, p: State<H>, events: ListenOn, m: Monitor, pass: Pass, i: nat, t: int, u: int)
    requires InBounds(h) && Environment(m, pass) && Polite(m, pass) && i < |pass.calls|
    requires var n := DispatchAll(m, pass.calls);
             HasExpired(n, pass.now) && n.activity[0].fd == pass.calls[i].fd
    requires var fd := pass.calls[i].fd;
             var (q, result) := SocketIsReady(h, p);
             pass.calls[i].actions == At(Finalize(fd, events, result).1, t) &&
             pass.idle.actions == At(Finalize(fd, Finalize(fd, events, result).0, SocketIsIdle(h, q).1).1, u)
    ensures var (q, result) := SocketIsReady(h, p);
            AsksTwice(m, pass) <==> IsTerminated(result.status) && DirectionOf(q.phase) == Output
  {
    hide SocketIsReady, Processor.SocketIsIdle, Finalize, Asked, DispatchAll, AllCallsAllowed, CallAllowed, InBounds;
    var fd := pass.calls[i].fd;
    var (q, result) := SocketIsReady(h, p);
    ResultAsks(fd, events, result, t);
    IdleAsks(h, q, Finalize(fd, events, result).0, fd, u);
    AskedByOwn(pass.calls, i);
  }

  // ---- Agreement over whole runs ----

  /** A connection with its session, its handler's interest, and the monitor that it shares. */
  datatype World<H> = World(session: State<H>, events: ListenOn, monitor: Monitor, ended: bool)

  /** An event of this connection, a callback of another listener, or the end of a pass. */
  datatype Step = Own(event: Event, now: int, done: int) | Other(call: Call) | EndOfPass

  ghost function Take<H(!new)>(h: Handler<H>, fd: Fd, w: World<H>, step: Step): World<H>
    requires InBounds(h)
  {
    match step
    case Own(event, now, done) =>
      var (q, result) := Handle(h, w.session, event);
      var (events, actions) := Finalize(fd, w.events, result);
      World(q, events, Dispatch(w.monitor, Call(fd, At(actions, now), done)), IsTerminated(result.status))
    case Other(call) => w.(monitor := Dispatch(w.monitor, call))
    case EndOfPass =>
      match Flush(w.monitor)
      case LookupFailed => w
      case Flushed(m) => w.(monitor := m)
  }

  ghost function TakeAll<H(!new)>(h: Handler<H>, fd: Fd, w: World<H>, steps: seq<Step>): World<H>
    requires InBounds(h)
    decreases steps
  {
    if steps == [] || w.ended then w else TakeAll(h, fd, Take(h, fd, w, steps[0]), steps[1..])
  }

  /** Others do not touch the registration of `fd`, and do not clear it with all the rest. */
  predicate LeavesAlone(fd: Fd, actions: seq<Timed>) {
    forall k :: 0 <= k < |actions| ==> !actions[k].action.Clear? && actions[k].action.fd != fd
  }

  predicate OthersKeepAway(fd: Fd, steps: seq<Step>) {
    forall k :: 0 <= k < |steps| && steps[k].Other? ==> LeavesAlone(fd, steps[k].call.actions)
  }

  /** The connection is registered, agrees with its registration, and is not about to lose it. */
  ghost predicate Connected<H>(w: World<H>, fd: Fd) {
    Agree(w.session, w.events, w.monitor, fd) && fd !in w.monitor.toRemove && !w.monitor.clearRequested
  }

  lemma {:induction false} OthersKeepRegistration(m: Monitor, actions: seq<Timed>, fd: Fd)
    requires LeavesAlone(fd, actions) && fd in m.interest && fd !in m.toRemove
    ensures var q := PerformAll(m, actions);
            fd in q.interest && q.interest[fd] == m.interest[fd] && fd !in q.toRemove && q.clearRequested == m.clearRequested
    decreases actions
  {
    if actions != [] {
      assert LeavesAlone(fd, actions[1..]) by {
        forall k | 0 <= k < |actions| - 1 ensures !actions[1..][k].action.Clear? && actions[1..][k].action.fd != fd {
          assert actions[1..][k] == actions[k + 1];
        }
      }
      OthersKeepRegistration(Perform(m, actions[0]), actions[1..], fd);
    }
  }

  lemma {:induction false} FlushKeepsRegistration(m: Monitor, fds: seq<Fd>, fd: Fd)
    requires fd in m.interest && fd !in fds && RemoveAll(m, fds).Flushed?
    ensures var n := RemoveAll(m, fds).m;
            fd in n.interest && n.interest[fd] == m.interest[fd] && n.clearRequested == m.clearRequested
    decreases fds
  {
    if fds != [] { FlushKeepsRegistration(RemoveNow(m, fds[0]), fds[1..], fd); }
  }

  lemma StepKeepsConnected<H(!new)>(h: Handler<H>, fd: Fd, w: World<H>, step: Step)
    requires InBounds(h) && Connected(w, fd)
    requires step.Other? ==> LeavesAlone(fd, step.call.actions)
    ensures !Take(h, fd, w, step).ended ==> Connected(Take(h, fd, w, step), fd) || w.ended
  {
    hide Handle, Finalize;
    match step
    case Own(event, now, _) => EventKeepsAgreement(h, w.session, event, w.events, w.monitor, fd, now);
    case Other(call) => OthersKeepRegistration(w.monitor, call.actions, fd);
    case EndOfPass =>
      if Flush(w.monitor).Flushed? { FlushKeepsRegistration(w.monitor, w.monitor.toRemove, fd); }
  }

  /**
   From its acceptance to its end, whatever other listeners ask of the monitor in between, and
   whatever passes end: phase, direction, handler and monitor agree about the connection.
   */
  lemma {:induction false} RunKeepsAgreement<H(!new)>(h: Handler<H>, fd: Fd, w: World<H>, steps: seq<Step>)
    requires InBounds(h) && OthersKeepAway(fd, steps) && (w.ended || Connected(w, fd))
    ensures var v := TakeAll(h, fd, w, steps); v.ended || Connected(v, fd)
    decreases steps
  {
    hide Take, Connected, LeavesAlone;
    if steps != [] && !w.ended {
      StepKeepsConnected(h, fd, w, steps[0]);
      assert OthersKeepAway(fd, steps[1..]) by {
        forall k | 0 <= k < |steps| - 1 && steps[1..][k].Other? ensures LeavesAlone(fd, steps[1..][k].call.actions) {
          assert steps[1..][k] == steps[k + 1];
        }
      }
      RunKeepsAgreement(h, fd, Take(h, fd, w, steps[0]), steps[1..]);
    }
  }

  /** So it is for a connection from the moment that it is accepted under a fresh descriptor. */
  lemma AcceptedStaysInAgreement<H(!new)>(h: Handler<H>, connection: Connection, app: H, m: Monitor, fd: Fd, now: int, steps: seq<Step>)
    requires InBounds(h) && OthersKeepAway(fd, steps) && fd !in m.toRemove && !m.clearRequested
    ensures var accepted := World(Start(connection, app), ReadIsPossible, Perform(m, Timed(Add(fd, ReadIsPossible), now)), false);
            var w := TakeAll(h, fd, accepted, steps);
            w.ended || Agree(w.session, w.events, w.monitor, fd)
  {
    hide TakeAll;
    var accepted := World(Start(connection, app), ReadIsPossible, Perform(m, Timed(Add(fd, ReadIsPossible), now)), false);
    AcceptedAgrees(connection, app, m, fd, now);
    RunKeepsAgreement(h, fd, accepted, steps);
  }

  /** The listener of a connection. */
  class ConnectionEventHandler<H(!new)> {
    const session: Server.RequestProcessor<H>
    var events: ListenOn

    constructor (session: Server.RequestProcessor<H>, events: ListenOn)
      ensures this.session == session && this.events == events
    {
      this.session, this.events := session, events;
    }

    method FdIsReady(monitor: FdEventMonitor, fd: Fd, now: int)
      requires session.Valid() && fd in monitor.listeners
      modifies this, monitor, session, session.Parts(), session.state.Objects()
      ensures session.Valid()
      ensures var (q, result) := Handle(session.handler, old(session.Value()), Ready);
              session.Value() == q && events == Finalize(fd, old(events), result).0 &&
              monitor.Value() == PerformAll(old(monitor.Value()), At(Finalize(fd, old(events), result).1, now))
    {
      hide Processor.SocketIsReady, PerformAll, InBounds;
      var result := session.SocketIsReady();
      FinalizeEvent(result, monitor, fd, now);
    }

    method FdIsIdle(monitor: FdEventMonitor, fd: Fd, now: int)
      requires session.Valid() && fd in monitor.listeners
      modifies this, monitor, session, session.session
      ensures session.Valid()
      ensures var (q, result) := Handle(session.handler, old(session.Value()), Idle);
              session.Value() == q && events == Finalize(fd, old(events), result).0 &&
              monitor.Value() == PerformAll(old(monitor.Value()), At(Finalize(fd, old(events), result).1, now))
    {
      var result := session.SocketIsIdle();
      FinalizeEvent(result, monitor, fd, now);
    }

    method FinalizeEvent(result: ProcessResult, monitor: FdEventMonitor, fd: Fd, now: int)
      requires fd in monitor.listeners
      modifies this, monitor
      ensures events == Finalize(fd, old(events), result).0
      ensures monitor.Value() == PerformAll(old(monitor.Value()), At(Finalize(fd, old(events), result).1, now))
    {
      OneAction(monitor.Value(), Timed(Remove(fd), now));
      OneAction(monitor.Value(), Timed(Modify(fd, InterestOf(result.direction)), now));
      if IsTerminated(result.status) {
        assert At([Remove(fd)], now) == [Timed(Remove(fd), now)];
        monitor.DeferredRemove(fd, now);
        return;
      }
      var newEvents := InterestOf(result.direction);
      if newEvents != events {
        assert At([Modify(fd, newEvents)], now) == [Timed(Modify(fd, newEvents), now)];
        monitor.ModifyInterest(fd, newEvents, now);
        events := newEvents;
      }
    }
  }
}
