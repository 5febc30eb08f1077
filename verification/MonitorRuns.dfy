/**
 Whole passes of the event monitor, and runs of passes: the invariant, the safety of
 deferred removal, and the order in which idle descriptors are notified.
 */
module MonitorRuns {
  import opened EventMonitor

  // ---- What the kernel, the clock and the listeners guarantee ----

  predicate DistinctFds(calls: seq<Call>) {
    forall i, j :: 0 <= i < j < |calls| ==> calls[i].fd != calls[j].fd
  }

  /** The wait returns each registered descriptor at most once, and time goes forward. */
  predicate Environment(m: Monitor, pass: Pass) {
    AllCallsAllowed(m, pass.calls) && DistinctFds(pass.calls) &&
    (forall k :: 0 <= k < |pass.calls| ==> pass.calls[k].fd in m.listeners) &&
    var n := DispatchAll(m, pass.calls);
    n.clock <= pass.now &&
    (HasExpired(n, pass.now) ==>
       CallAllowed(n.(clock := pass.now), Call(n.activity[0].fd, pass.idle.actions, pass.idle.now)))
  }

  /** The descriptors that a callback asks to have removed, in order. */
  function Asked(actions: seq<Timed>): seq<Fd> {
    if actions == [] then []
    else (if actions[0].action.Remove? then [actions[0].action.fd] else []) + Asked(actions[1..])
  }

  predicate AsksClear(actions: seq<Timed>) {
    actions != [] && (actions[0].action.Clear? || AsksClear(actions[1..]))
  }

  function AskedBy(calls: seq<Call>): seq<Fd> {
    if calls == [] then [] else Asked(calls[0].actions) + AskedBy(calls[1..])
  }

  predicate AnyAsksClear(calls: seq<Call>) {
    calls != [] && (AsksClear(calls[0].actions) || AnyAsksClear(calls[1..]))
  }

  /** A listener asks for the removal of nobody but itself, at most once. */
  predicate RemovesItself(fd: Fd, actions: seq<Timed>) {
    Asked(actions) == [] || Asked(actions) == [fd]
  }

  predicate Polite(m: Monitor, pass: Pass) {
    (forall k :: 0 <= k < |pass.calls| ==> RemovesItself(pass.calls[k].fd, pass.calls[k].actions)) &&
    var n := DispatchAll(m, pass.calls);
    HasExpired(n, pass.now) ==> RemovesItself(n.activity[0].fd, pass.idle.actions)
  }

  /** All removals that the callbacks of a pass ask for. */
  function PassAsks(m: Monitor, pass: Pass): seq<Fd> {
    AskedBy(pass.calls) + if HasExpired(DispatchAll(m, pass.calls), pass.now) then Asked(pass.idle.actions) else []
  }

  predicate PassClears(m: Monitor, pass: Pass) {
    AnyAsksClear(pass.calls) || (HasExpired(DispatchAll(m, pass.calls), pass.now) && AsksClear(pass.idle.actions))
  }

  // ---- The listener set only grows before the flush ----

  /** Every event returned by the wait still refers to a registered listener when it is handled. */
  lemma {:induction false} EventsStayRegistered(m: Monitor, calls: seq<Call>)
    ensures m.listeners.Keys <= DispatchAll(m, calls).listeners.Keys
    decreases calls
  {
    if calls != [] {
      GrowsOnly(m, calls[0].actions);
      EventsStayRegistered(Dispatch(m, calls[0]), calls[1..]);
    }
  }

  lemma {:induction false} DispatchAllKeepsValid(m: Monitor, calls: seq<Call>)
    requires Valid(m) && AllCallsAllowed(m, calls)
    ensures Valid(DispatchAll(m, calls)) && m.clock <= DispatchAll(m, calls).clock
    decreases calls
  {
    hide Valid, Dispatch, CallAllowed;
    if calls != [] {
      DispatchKeepsValid(m, calls[0]);
      DispatchAllKeepsValid(Dispatch(m, calls[0]), calls[1..]);
    }
  }

  lemma BeforeFlushKeepsValid(m: Monitor, pass: Pass)
    requires Valid(m) && Environment(m, pass)
    ensures Valid(BeforeFlush(m, pass))
    ensures m.listeners.Keys <= BeforeFlush(m, pass).listeners.Keys
  {
    hide Valid, Dispatch, CallAllowed, DispatchAll, AllCallsAllowed;
    var n := DispatchAll(m, pass.calls);
    DispatchAllKeepsValid(m, pass.calls);
    EventsStayRegistered(m, pass.calls);
    AdvanceClock(n, pass.now);
    if HasExpired(n, pass.now) {
      DispatchKeepsValid(n.(clock := pass.now), Call(n.activity[0].fd, pass.idle.actions, pass.idle.now));
    }
  }

  // ---- The flush ----

  predicate NoDuplicates(fds: seq<Fd>) {
    forall i, j :: 0 <= i < j < |fds| ==> fds[i] != fds[j]
  }

  predicate AllRegistered(m: Monitor, fds: seq<Fd>) {
    forall i :: 0 <= i < |fds| ==> fds[i] in m.listeners
  }

  /** The lookups of a flush all succeed exactly if the queue names registered descriptors once each. */
  lemma {:induction false} FlushSucceedsExactly(m: Monitor, fds: seq<Fd>)
    ensures RemoveAll(m, fds).Flushed? <==> NoDuplicates(fds) && AllRegistered(m, fds)
    decreases fds
  {
    if fds != [] {
      var fd, rest := fds[0], fds[1..];
      if fd in m.listeners {
        var n := RemoveNow(m, fd);
        FlushSucceedsExactly(n, rest);
        if NoDuplicates(fds) && AllRegistered(m, fds) {
          forall i | 0 <= i < |rest| ensures rest[i] in n.listeners { assert rest[i] == fds[i + 1] != fds[0]; }
          assert NoDuplicates(rest);
        }
        if NoDuplicates(rest) && AllRegistered(n, rest) {
          forall i, j | 0 <= i < j < |fds| ensures fds[i] != fds[j] { assert fds[j] == rest[j - 1]; }
          forall i | 0 <= i < |fds| ensures fds[i] in m.listeners { if i > 0 { assert fds[i] == rest[i - 1]; } }
        }
      }
    }
  }

  lemma RemoveNowKeepsValid(m: Monitor, fd: Fd)
    requires Valid(m) && fd in m.listeners
    ensures Valid(RemoveNow(m, fd))
  {
    hide Linked, Without;
    WithoutKeepsLinked(m.listeners, m.activity, fd);
    WithoutKeepsOrder(m.activity, m.listeners[fd].timer, m.clock + INACTIVITY_PERIOD, m.nextId);
  }

  lemma {:induction false} RemoveAllKeepsValid(m: Monitor, fds: seq<Fd>)
    requires Valid(m) && RemoveAll(m, fds).Flushed?
    ensures var n := RemoveAll(m, fds).m;
            Valid(n) && n.toRemove == m.toRemove && n.clock == m.clock && n.clearRequested == m.clearRequested
    decreases fds
  {
    hide Valid, Without;
    if fds != [] {
      RemoveNowKeepsValid(m, fds[0]);
      RemoveAllKeepsValid(RemoveNow(m, fds[0]), fds[1..]);
    }
  }

  lemma FlushKeepsValid(m: Monitor)
    requires Valid(m) && Flush(m).Flushed?
    ensures Valid(Flush(m).m) && Flush(m).m.toRemove == [] && !Flush(m).m.clearRequested && Flush(m).m.clock == m.clock
  {
    hide Linked, Without;
    if !m.clearRequested {
      RemoveAllKeepsValid(m, m.toRemove);
    } else {
      EmptyIsLinked();
    }
  }

  lemma EmptyIsLinked()
    ensures Linked(map[], [])
  {
  }

  // ---- What a pass queues ----

  lemma {:induction false} QueueOf(m: Monitor, actions: seq<Timed>)
    ensures var q := PerformAll(m, actions);
            q.toRemove == m.toRemove + Asked(actions) &&
            (q.clearRequested <==> m.clearRequested || AsksClear(actions))
    decreases actions
  {
    if actions != [] { QueueOf(Perform(m, actions[0]), actions[1..]); }
  }

  lemma {:induction false} QueueOfAll(m: Monitor, calls: seq<Call>)
    ensures var q := DispatchAll(m, calls);
            q.toRemove == m.toRemove + AskedBy(calls) &&
            (q.clearRequested <==> m.clearRequested || AnyAsksClear(calls))
    decreases calls
  {
    if calls != [] {
      QueueOf(m, calls[0].actions);
      QueueOfAll(Dispatch(m, calls[0]), calls[1..]);
    }
  }

  /** The queue at the flush is what the callbacks asked for. */
  lemma QueueOfPass(m: Monitor, pass: Pass)
    requires m.toRemove == [] && !m.clearRequested
    ensures BeforeFlush(m, pass).toRemove == PassAsks(m, pass)
    ensures BeforeFlush(m, pass).clearRequested <==> PassClears(m, pass)
  {
    hide DispatchAll, PerformAll;
    QueueOfAll(m, pass.calls);
    QueueOf(DispatchAll(m, pass.calls).(clock := pass.now), pass.idle.actions);
  }

  function FdsOf(calls: seq<Call>): set<Fd> {
    set k | 0 <= k < |calls| :: calls[k].fd
  }

  /** Polite ready callbacks ask for each descriptor at most once, and for ready ones only. */
  lemma {:induction false} AskedOnce(calls: seq<Call>)
    requires DistinctFds(calls) && forall k :: 0 <= k < |calls| ==> RemovesItself(calls[k].fd, calls[k].actions)
    ensures NoDuplicates(AskedBy(calls)) && forall fd :: fd in AskedBy(calls) ==> fd in FdsOf(calls)
    decreases calls
  {
    hide Asked;
    if calls != [] {
      AskedOnce(calls[1..]);
      FdsOfHead(calls);
      assert calls[0].fd !in FdsOf(calls[1..]);
    }
  }

  /** Every node of a descriptor in `fds` has a deadline that is not before `bound`. */
  ghost predicate NotBefore(m: Monitor, fds: set<Fd>, bound: int) {
    forall i :: 0 <= i < |m.activity| && m.activity[i].fd in fds ==> m.activity[i].deadline >= bound
  }

  lemma WithoutIsPart(activity: seq<Node>, id: nat)
    ensures var rest := Without(activity, id);
            forall k :: 0 <= k < |rest| ==> rest[k] in activity && (rest[k].id == id ==> Position(activity, id) < |activity|)
  {
  }

  lemma {:induction false} PerformAllKeepsNotBefore(m: Monitor, actions: seq<Timed>, fds: set<Fd>, bound: int)
    requires AllAllowed(m, actions) && NotBefore(m, fds, bound) && bound <= m.clock + INACTIVITY_PERIOD
    ensures NotBefore(PerformAll(m, actions), fds, bound) && m.clock <= PerformAll(m, actions).clock
    decreases actions
  {
    if actions != [] { PerformAllKeepsNotBefore(Perform(m, actions[0]), actions[1..], fds, bound); }
  }

  /** A callback refreshes the node of its descriptor, and makes no other older. */
  lemma DispatchRefreshes(m: Monitor, call: Call, fds: set<Fd>, bound: int)
    requires Valid(m) && CallAllowed(m, call) && call.fd in m.listeners
    requires NotBefore(m, fds, bound) && bound <= m.clock + INACTIVITY_PERIOD
    ensures NotBefore(Dispatch(m, call), fds + {call.fd}, bound)
  {
    hide Linked, Without;
    var k := PerformAll(m, call.actions);
    PerformAllKeepsNotBefore(m, call.actions, fds, bound);
    PerformAllKeepsValid(m, call.actions);
    GrowsOnly(m, call.actions);
    var id := k.listeners[call.fd].timer;
    WithoutIsPart(k.activity, id);
    WithoutKeepsLinked(k.listeners, k.activity, call.fd);
    OthersOnly(k.listeners, Without(k.activity, id), call.fd);
  }

  lemma OthersOnly(listeners: map<Fd, Listener>, rest: seq<Node>, fd: Fd)
    requires Linked(listeners - {fd}, rest)
    ensures forall i :: 0 <= i < |rest| ==> rest[i].fd != fd
  {
  }

  lemma {:induction false} DispatchAllRefreshes(m: Monitor, calls: seq<Call>, fds: set<Fd>, bound: int)
    requires Valid(m) && AllCallsAllowed(m, calls) && forall k :: 0 <= k < |calls| ==> calls[k].fd in m.listeners
    requires NotBefore(m, fds, bound) && bound <= m.clock + INACTIVITY_PERIOD
    ensures NotBefore(DispatchAll(m, calls), fds + FdsOf(calls), bound)
    decreases calls
  {
    hide Valid, CallAllowed, Dispatch, NotBefore;
    if calls == [] {
      assert fds + FdsOf(calls) == fds;
    } else {
      var c, rest := calls[0], calls[1..];
      DispatchRefreshes(m, c, fds, bound);
      DispatchKeepsValid(m, c);
      DispatchAllRefreshes(Dispatch(m, c), rest, fds + {c.fd}, bound);
      FdsOfHead(calls);
      assert fds + {c.fd} + FdsOf(rest) == fds + FdsOf(calls);
    }
  }

  lemma FdsOfHead(calls: seq<Call>)
    requires calls != []
    ensures FdsOf(calls) == {calls[0].fd} + FdsOf(calls[1..])
  {
    var rest := calls[1..];
    forall x | x in FdsOf(calls) ensures x in {calls[0].fd} + FdsOf(rest) {
      var k :| 0 <= k < |calls| && calls[k].fd == x;
      if k > 0 { assert rest[k - 1].fd == x; }
    }
    forall x | x in FdsOf(rest) ensures x in FdsOf(calls) {
      var k :| 0 <= k < |rest| && rest[k].fd == x;
      assert calls[k + 1].fd == x;
    }
  }

  /** A state between two passes: the invariant holds and nothing waits to be removed. */
  ghost predicate Settled(m: Monitor) {
    Valid(m) && m.toRemove == [] && !m.clearRequested
  }

  /** Less time than the inactivity period has passed when the pass looks for idle listeners. */
  predicate Short(m: Monitor, pass: Pass) {
    pass.now < m.clock + INACTIVITY_PERIOD
  }

  /**
   The listener that is found idle has already asked for its removal when it was ready in the
   same pass, and now asks for it again.
   */
  predicate AsksTwice(m: Monitor, pass: Pass) {
    var n := DispatchAll(m, pass.calls);
    HasExpired(n, pass.now) && n.activity[0].fd in AskedBy(pass.calls) && Asked(pass.idle.actions) != []
  }

  lemma PoliteQueue(m: Monitor, pass: Pass)
    requires Environment(m, pass) && Polite(m, pass)
    ensures NoDuplicates(PassAsks(m, pass)) <==> !AsksTwice(m, pass)
    ensures forall fd :: fd in PassAsks(m, pass) ==>
              fd in FdsOf(pass.calls) || (HasExpired(DispatchAll(m, pass.calls), pass.now) && fd == DispatchAll(m, pass.calls).activity[0].fd)
  {
    hide DispatchAll, Asked, AllCallsAllowed, CallAllowed;
    AskedOnce(pass.calls);
    var asked, n := AskedBy(pass.calls), DispatchAll(m, pass.calls);
    if HasExpired(n, pass.now) && Asked(pass.idle.actions) != [] {
      OneMore(asked, n.activity[0].fd);
    }
  }

  lemma OneMore(fds: seq<Fd>, fd: Fd)
    requires NoDuplicates(fds)
    ensures NoDuplicates(fds + [fd]) <==> fd !in fds
  {
    if fd in fds {
      var i :| 0 <= i < |fds| && fds[i] == fd;
      assert (fds + [fd])[i] == (fds + [fd])[|fds|];
    }
  }

  /**
   When polite listeners are removed without a failed lookup: exactly if everything is cleared,
   or no listener that is found idle had asked for its removal in this pass before.
   */
  lemma {:induction false} PassFlushesExactly(m: Monitor, pass: Pass)
    requires Settled(m) && Environment(m, pass) && Polite(m, pass)
    ensures Flush(BeforeFlush(m, pass)).Flushed? <==> PassClears(m, pass) || !AsksTwice(m, pass)
  {
    hide Valid, Environment, BeforeFlush, PassClears, AsksTwice, RemoveAll, NoDuplicates;
    var q := BeforeFlush(m, pass);
    QueueOfPass(m, pass);
    PoliteQueue(m, pass);
    QueueIsRegistered(m, pass);
    FlushSucceedsExactly(q, q.toRemove);
  }

  lemma QueueIsRegistered(m: Monitor, pass: Pass)
    requires Settled(m) && Environment(m, pass) && Polite(m, pass)
    ensures AllRegistered(BeforeFlush(m, pass), BeforeFlush(m, pass).toRemove)
  {
    hide BeforeFlush, AllCallsAllowed, CallAllowed, RemovesItself, DispatchAll, PassAsks;
    var n, q := DispatchAll(m, pass.calls), BeforeFlush(m, pass);
    QueueOfPass(m, pass);
    PoliteQueue(m, pass);
    BeforeFlushKeepsValid(m, pass);
    if HasExpired(n, pass.now) { ExpiredStaysRegistered(m, pass); }
    forall fd | fd in q.toRemove ensures fd in q.listeners {
      if fd in FdsOf(pass.calls) {
        var k :| 0 <= k < |pass.calls| && pass.calls[k].fd == fd;
      }
    }
  }

  /** In a short pass the descriptor that is found idle was not ready. */
  lemma IdleWasNotReady(m: Monitor, pass: Pass)
    requires Valid(m) && Environment(m, pass) && Short(m, pass)
    ensures var n := DispatchAll(m, pass.calls);
            HasExpired(n, pass.now) ==> n.activity[0].fd !in FdsOf(pass.calls)
  {
    hide Valid, Dispatch, DispatchAll, AllCallsAllowed, CallAllowed;
    DispatchAllRefreshes(m, pass.calls, {}, m.clock + INACTIVITY_PERIOD);
    var none: set<Fd> := {};
    assert none + FdsOf(pass.calls) == FdsOf(pass.calls);
  }

  /**
   Deferred removal is safe in a pass that is shorter than the inactivity period: every lookup
   of the flush succeeds, and the state is settled again.
   */
  lemma {:induction false} ShortPassSettles(m: Monitor, pass: Pass)
    requires Settled(m) && Environment(m, pass) && Polite(m, pass) && Short(m, pass)
    ensures Flush(BeforeFlush(m, pass)).Flushed? && Settled(Flush(BeforeFlush(m, pass)).m)
  {
    hide Environment, BeforeFlush, DispatchAll, Flush, PassClears;
    PassFlushesExactly(m, pass);
    IdleWasNotReady(m, pass);
    PoliteAsksReady(m, pass);
    PassKeepsSettled(m, pass);
  }

  lemma PoliteAsksReady(m: Monitor, pass: Pass)
    requires Environment(m, pass) && Polite(m, pass)
    ensures forall fd :: fd in AskedBy(pass.calls) ==> fd in FdsOf(pass.calls)
  {
    AskedOnce(pass.calls);
  }

  /** Whatever the callbacks of a pass do, what a flush that finds its listeners leaves is settled. */
  lemma PassKeepsSettled(m: Monitor, pass: Pass)
    requires Valid(m) && Environment(m, pass) && Flush(BeforeFlush(m, pass)).Flushed?
    ensures Settled(Flush(BeforeFlush(m, pass)).m)
  {
    hide Environment, BeforeFlush, Flush, Linked;
    BeforeFlushKeepsValid(m, pass);
    FlushKeepsValid(BeforeFlush(m, pass));
  }

  lemma ExpiredStaysRegistered(m: Monitor, pass: Pass)
    requires Valid(m) && Environment(m, pass) && HasExpired(DispatchAll(m, pass.calls), pass.now)
    ensures DispatchAll(m, pass.calls).activity[0].fd in BeforeFlush(m, pass).listeners
  {
    hide AllCallsAllowed, CallAllowed, DispatchAll, PerformAll;
    var n := DispatchAll(m, pass.calls);
    DispatchAllKeepsValid(m, pass.calls);
    GrowsOnly(n.(clock := pass.now), pass.idle.actions);
  }

  lemma OneAction(m: Monitor, t: Timed)
    ensures PerformAll(m, [t]) == Perform(m, t) && (AllAllowed(m, [t]) <==> Allowed(m, t))
    ensures Asked([t]) == (if t.action.Remove? then [t.action.fd] else []) && (AsksClear([t]) <==> t.action.Clear?)
  {
    assert [t][1..] == [];
  }

  lemma OneCall(m: Monitor, call: Call)
    ensures DispatchAll(m, [call]) == Dispatch(m, call) && (AllCallsAllowed(m, [call]) <==> CallAllowed(m, call))
  {
    assert [call][1..] == [];
  }

  /** A longer pass can fail: a listener that is ready and then idle in it may be queued twice. */
  lemma LongPassCanFail() returns (m: Monitor, pass: Pass)
    ensures Settled(m) && Environment(m, pass) && Polite(m, pass) && !Short(m, pass)
    ensures Flush(BeforeFlush(m, pass)) == LookupFailed
  {
    m := Monitor(map[7 := Listener(0)], [Node(0, 20, 7)], [], false, map[7 := ReadIsPossible], 1, 0);
    assert HasNode(m.activity, 7) by { assert m.activity[0].fd == 7; }
    var first, second := Timed(Remove(7), 0), Timed(Remove(7), 20);
    var call := Call(7, [first], 0);
    pass := Pass([call], 20, IdleCall([second], 20));
    OneAction(m, first);
    OneCall(m, call);
    var n := Dispatch(m, call);
    assert Position(m.activity, 0) == 0;
    assert n.activity == [Node(0, 20, 7)];
    OneAction(n.(clock := 20), second);
    assert [call][1..] == [];
    assert 7 in AskedBy([call]);
    assert DispatchAll(m, pass.calls) == n;
    hide Dispatch, DispatchAll, Touch, Perform, Position, Without;
    assert Environment(m, pass) && Polite(m, pass);
    assert AsksTwice(m, pass);
    assert !AnyAsksClear([call]) && !AsksClear([second]);
    assert !PassClears(m, pass);
    PassFlushesExactly(m, pass);
  }

  // ---- What a pass leaves ----

  /** The descriptors that a callback adds. */
  function Added(actions: seq<Timed>): set<Fd> {
    if actions == [] then {}
    else (if actions[0].action.Add? then {actions[0].action.fd} else {}) + Added(actions[1..])
  }

  function AddedBy(calls: seq<Call>): set<Fd> {
    if calls == [] then {} else Added(calls[0].actions) + AddedBy(calls[1..])
  }

  function PassAdds(m: Monitor, pass: Pass): set<Fd> {
    AddedBy(pass.calls) + if HasExpired(DispatchAll(m, pass.calls), pass.now) then Added(pass.idle.actions) else {}
  }

  lemma {:induction false} ListenersOf(m: Monitor, actions: seq<Timed>)
    ensures PerformAll(m, actions).listeners.Keys == m.listeners.Keys + Added(actions)
    decreases actions
  {
    if actions != [] { ListenersOf(Perform(m, actions[0]), actions[1..]); }
  }

  lemma {:induction false} ListenersOfAll(m: Monitor, calls: seq<Call>)
    ensures DispatchAll(m, calls).listeners.Keys == m.listeners.Keys + AddedBy(calls)
    decreases calls
  {
    if calls != [] {
      ListenersOf(m, calls[0].actions);
      ListenersOfAll(Dispatch(m, calls[0]), calls[1..]);
    }
  }

  lemma ListenersOfPass(m: Monitor, pass: Pass)
    ensures BeforeFlush(m, pass).listeners.Keys == m.listeners.Keys + PassAdds(m, pass)
  {
    hide DispatchAll, PerformAll;
    ListenersOfAll(m, pass.calls);
    ListenersOf(DispatchAll(m, pass.calls).(clock := pass.now), pass.idle.actions);
  }

  /** Removing takes the queued descriptors away, and nothing else. */
  lemma {:induction false} RemoveAllLeaves(m: Monitor, fds: seq<Fd>)
    requires RemoveAll(m, fds).Flushed?
    ensures var n := RemoveAll(m, fds).m;
            forall fd :: fd in n.listeners <==> fd in m.listeners && fd !in fds
    ensures var n := RemoveAll(m, fds).m;
            forall fd :: (fd in n.listeners ==> n.listeners[fd] == m.listeners[fd]) &&
                         (fd in m.interest && fd !in fds ==> fd in n.interest && n.interest[fd] == m.interest[fd])
    decreases fds
  {
    if fds != [] { RemoveAllLeaves(RemoveNow(m, fds[0]), fds[1..]); }
  }

  /** What is left of an entry: the timer that refers to its node, and what it is waiting for. */
  predicate Untouched(m: Monitor, n: Monitor, fd: Fd) {
    fd in m.listeners && fd in n.listeners && n.listeners[fd] == m.listeners[fd] &&
    (fd in m.interest ==> fd in n.interest && n.interest[fd] == m.interest[fd])
  }

  /** After a flush exactly those are registered who were, unless all or they were to be removed. */
  lemma FlushLeavesExactly(m: Monitor)
    requires Flush(m).Flushed?
    ensures var n := Flush(m).m;
            forall fd :: fd in n.listeners <==> fd in m.listeners && !m.clearRequested && fd !in m.toRemove
    ensures var n := Flush(m).m;
            forall fd :: fd in n.listeners ==> Untouched(m, n, fd)
  {
    hide RemoveAll;
    if !m.clearRequested { RemoveAllLeaves(m, m.toRemove); }
  }

  /**
   After a pass exactly those are registered who were before it or were added in it, unless a
   clear was asked for, or their removal was.
   */
  lemma PassLeavesExactly(m: Monitor, pass: Pass)
    requires m.toRemove == [] && !m.clearRequested && Flush(BeforeFlush(m, pass)).Flushed?
    ensures var n := Flush(BeforeFlush(m, pass)).m;
            forall fd :: fd in n.listeners <==>
              (fd in m.listeners || fd in PassAdds(m, pass)) && !PassClears(m, pass) && fd !in PassAsks(m, pass)
  {
    hide Flush, BeforeFlush, PassAdds, PassAsks, PassClears;
    var q := BeforeFlush(m, pass);
    QueueOfPass(m, pass);
    ListenersOfPass(m, pass);
    FlushLeavesExactly(q);
    assert forall fd :: fd in q.listeners <==> fd in q.listeners.Keys;
  }

  /** A clear leaves nobody to listen, nobody to time out and nothing to wait for: no wait follows. */
  lemma ClearLeavesNothing(m: Monitor, pass: Pass)
    requires m.toRemove == [] && !m.clearRequested && PassClears(m, pass)
    ensures var r := Flush(BeforeFlush(m, pass));
            r.Flushed? && r.m.listeners == map[] && r.m.activity == [] && r.m.interest == map[] && r.m.toRemove == []
  {
    hide BeforeFlush, PassClears;
    QueueOfPass(m, pass);
  }

  /** A descriptor has twenty seconds from the moment that it is added, and is waited for as was asked. */
  lemma AddedHasTwentySeconds(m: Monitor, fd: Fd, events: ListenOn, now: int)
    ensures var n := Perform(m, Timed(Add(fd, events), now));
            n.activity == m.activity + [Node(m.nextId, now + 20, fd)] && fd in n.listeners && n.listeners[fd].timer == m.nextId &&
            fd in n.interest && n.interest[fd] == events && forall g :: g != fd ==> (g in n.listeners <==> g in m.listeners)
  {
  }

  /** And twenty seconds from the moment that a callback of its listener has returned. */
  lemma ActiveHasTwentySeconds(m: Monitor, call: Call)
    requires Valid(m) && CallAllowed(m, call) && call.fd in m.listeners
    ensures var n := Dispatch(m, call);
            n.activity != [] && n.activity[|n.activity| - 1] == Node(m.listeners[call.fd].timer, call.now + 20, call.fd)
  {
    hide Without;
    PerformAllKeepsListener(m, call.actions, call.fd);
  }

  // ---- Runs of passes ----

  /** Each pass that the run comes to is as kernel and clock make it. */
  ghost predicate InEnvironment(m: Monitor, passes: seq<Pass>)
    decreases passes
  {
    passes == [] ||
    (Environment(m, passes[0]) &&
     match Flush(BeforeFlush(m, passes[0]))
     case LookupFailed => true
     case Flushed(n) => InEnvironment(n, passes[1..]))
  }

  function RunPasses(m: Monitor, passes: seq<Pass>): FlushResult
    decreases passes
  {
    if passes == [] then Flushed(m)
    else match Flush(BeforeFlush(m, passes[0]))
         case LookupFailed => LookupFailed
         case Flushed(n) => RunPasses(n, passes[1..])
  }

  /** A new monitor with the listeners that are enrolled before the first pass. */
  lemma EnrolledIsSettled(nextId: nat, clock: int, actions: seq<Timed>)
    requires AllAllowed(NewMonitor(nextId, clock), actions) && Asked(actions) == [] && !AsksClear(actions)
    ensures Settled(PerformAll(NewMonitor(nextId, clock), actions))
  {
    hide Linked;
    EmptyIsLinked();
    PerformAllKeepsValid(NewMonitor(nextId, clock), actions);
    QueueOf(NewMonitor(nextId, clock), actions);
  }

  /**
   Over every run, whatever the listeners add, modify, remove and clear, and however long the
   passes take: each registered descriptor is in the activity list exactly once, each timer
   refers to its own node, and the list is in the order of its deadlines.
   */
  lemma {:induction false} RunKeepsSettled(m: Monitor, passes: seq<Pass>)
    requires Settled(m) && InEnvironment(m, passes)
    ensures RunPasses(m, passes).Flushed? ==> Settled(RunPasses(m, passes).m)
    decreases passes
  {
    hide Settled, Environment, Flush, BeforeFlush;
    if passes != [] && Flush(BeforeFlush(m, passes[0])).Flushed? {
      SettledIsValid(m);
      PassKeepsSettled(m, passes[0]);
      RunKeepsSettled(Flush(BeforeFlush(m, passes[0])).m, passes[1..]);
    }
  }

  lemma SettledIsValid(m: Monitor)
    requires Settled(m)
    ensures Valid(m) && m.toRemove == []
  {
  }

  /** The listeners of the whole run remove nobody but themselves. */
  ghost predicate AlwaysPolite(m: Monitor, passes: seq<Pass>)
    decreases passes
  {
    passes == [] ||
    (Polite(m, passes[0]) &&
     match Flush(BeforeFlush(m, passes[0]))
     case LookupFailed => true
     case Flushed(n) => AlwaysPolite(n, passes[1..]))
  }

  /** Some pass that the run comes to has a listener that asks twice, and no clear. */
  ghost predicate SometimesAsksTwice(m: Monitor, passes: seq<Pass>)
    decreases passes
  {
    passes != [] &&
    ((AsksTwice(m, passes[0]) && !PassClears(m, passes[0])) ||
     match Flush(BeforeFlush(m, passes[0]))
     case LookupFailed => false
     case Flushed(n) => SometimesAsksTwice(n, passes[1..]))
  }

  /** A run of polite listeners meets a failed lookup exactly if one of them asks twice in a pass. */
  lemma {:induction false} RunFlushesExactly(m: Monitor, passes: seq<Pass>)
    requires Settled(m) && InEnvironment(m, passes) && AlwaysPolite(m, passes)
    ensures RunPasses(m, passes).Flushed? <==> !SometimesAsksTwice(m, passes)
    decreases passes
  {
    hide Settled, Environment, Polite, Flush, BeforeFlush, AsksTwice, PassClears;
    if passes != [] {
      PassFlushesExactly(m, passes[0]);
      if Flush(BeforeFlush(m, passes[0])).Flushed? {
        SettledIsValid(m);
        PassKeepsSettled(m, passes[0]);
        RunFlushesExactly(Flush(BeforeFlush(m, passes[0])).m, passes[1..]);
      }
    }
  }

  // ---- Fairness ----

  /** Who is notified as idle in a pass. */
  function Notified(m: Monitor, pass: Pass): seq<Fd> {
    var n := DispatchAll(m, pass.calls);
    if HasExpired(n, pass.now) then [n.activity[0].fd] else []
  }

  function NotifiedInRun(m: Monitor, passes: seq<Pass>): seq<Fd>
    decreases passes
  {
    if passes == [] then []
    else Notified(m, passes[0]) +
         match Flush(BeforeFlush(m, passes[0]))
         case LookupFailed => []
         case Flushed(n) => NotifiedInRun(n, passes[1..])
  }

  /** Since the list is ordered, nobody has expired who stands behind somebody who has not. */
  lemma HeadExpiresFirst(m: Monitor, now: int, i: nat)
    requires Valid(m) && i < |m.activity| && m.activity[i].deadline <= now
    ensures HasExpired(m, now)
  {
  }

  predicate NoneOf(fds: seq<Fd>, front: seq<Node>) {
    forall i, j :: 0 <= i < |fds| && 0 <= j < |front| ==> fds[i] != front[j].fd
  }

  /** Removing a node that is not among the first ones leaves those where they are. */
  lemma WithoutKeepsFront(listeners: map<Fd, Listener>, activity: seq<Node>, fd: Fd, front: seq<Node>)
    requires Linked(listeners, activity) && fd in listeners && front <= activity
    requires forall j :: 0 <= j < |front| ==> front[j].fd != fd
    ensures front <= Without(activity, listeners[fd].timer)
  {
    var i := NodeOf(listeners, activity, fd);
    assert forall j :: 0 <= j < |front| ==> front[j] == activity[j];
  }

  lemma {:induction false} PerformAllKeepsFront(m: Monitor, actions: seq<Timed>, front: seq<Node>)
    requires front <= m.activity
    ensures front <= PerformAll(m, actions).activity
    decreases actions
  {
    if actions != [] { PerformAllKeepsFront(Perform(m, actions[0]), actions[1..], front); }
  }

  lemma DispatchKeepsFront(m: Monitor, call: Call, front: seq<Node>)
    requires Valid(m) && CallAllowed(m, call) && call.fd in m.listeners && front <= m.activity
    requires forall j :: 0 <= j < |front| ==> front[j].fd != call.fd
    ensures front <= Dispatch(m, call).activity
  {
    hide Linked, Without;
    var k := PerformAll(m, call.actions);
    PerformAllKeepsFront(m, call.actions, front);
    PerformAllKeepsValid(m, call.actions);
    GrowsOnly(m, call.actions);
    WithoutKeepsFront(k.listeners, k.activity, call.fd, front);
  }

  lemma {:induction false} DispatchAllKeepsFront(m: Monitor, calls: seq<Call>, front: seq<Node>)
    requires Valid(m) && AllCallsAllowed(m, calls) && front <= m.activity
    requires forall k :: 0 <= k < |calls| ==> calls[k].fd in m.listeners
    requires forall k, j :: 0 <= k < |calls| && 0 <= j < |front| ==> front[j].fd != calls[k].fd
    ensures front <= DispatchAll(m, calls).activity
    decreases calls
  {
    hide Valid, Dispatch, CallAllowed;
    if calls != [] {
      DispatchKeepsValid(m, calls[0]);
      DispatchKeepsFront(m, calls[0], front);
      DispatchAllKeepsFront(Dispatch(m, calls[0]), calls[1..], front);
    }
  }

  /** Notifying the head moves it behind all the others. */
  lemma IdleDropsHead(m: Monitor, idle: IdleCall, front: seq<Node>)
    requires Valid(m) && front != [] && front <= m.activity
    requires CallAllowed(m, Call(front[0].fd, idle.actions, idle.now))
    ensures front[1..] <= Dispatch(m, Call(front[0].fd, idle.actions, idle.now)).activity
  {
    var k := PerformAll(m, idle.actions);
    PerformAllKeepsFront(m, idle.actions, front);
    PerformAllKeepsListener(m, idle.actions, m.activity[0].fd);
    assert k.activity[0] == front[0];
    assert Position(k.activity, front[0].id) == 0;
    assert Without(k.activity, front[0].id) == k.activity[1..];
    assert front[1..] <= k.activity[1..];
  }

  lemma {:induction false} RemoveAllKeepsFront(m: Monitor, fds: seq<Fd>, front: seq<Node>)
    requires Valid(m) && RemoveAll(m, fds).Flushed? && front <= m.activity && NoneOf(fds, front)
    ensures front <= RemoveAll(m, fds).m.activity
    decreases fds
  {
    hide Linked, Without;
    if fds != [] {
      RemoveNowKeepsValid(m, fds[0]);
      WithoutKeepsFront(m.listeners, m.activity, fds[0], front);
      RemoveAllKeepsFront(RemoveNow(m, fds[0]), fds[1..], front);
    }
  }

  /**
   The descriptors in front have all expired when the pass looks for idle ones, and the pass
   has no activity on them; nobody clears, or removes one that stands behind the first.
   */
  predicate Leaves(m: Monitor, pass: Pass, front: seq<Node>) {
    !PassClears(m, pass) &&
    (forall j :: 0 <= j < |front| ==>
       front[j].deadline <= pass.now && forall k :: 0 <= k < |pass.calls| ==> front[j].fd != pass.calls[k].fd) &&
    (forall j :: 0 < j < |front| ==> front[j].fd !in PassAsks(m, pass))
  }

  /** One pass notifies the first of the expired, and the others move up in their order. */
  lemma PassNotifiesOldest(m: Monitor, pass: Pass, front: seq<Node>)
    requires Settled(m) && Environment(m, pass)
    requires front != [] && front <= m.activity && Leaves(m, pass, front)
    ensures Notified(m, pass) == [front[0].fd]
    ensures var r := Flush(BeforeFlush(m, pass)); r.Flushed? ==> front[1..] <= r.m.activity
  {
    hide Linked, Dispatch, DispatchAll, AllCallsAllowed, CallAllowed, RemoveAll, PassAsks, PassClears;
    var n, q := DispatchAll(m, pass.calls), BeforeFlush(m, pass);
    DispatchAllKeepsValid(m, pass.calls);
    DispatchAllKeepsFront(m, pass.calls, front);
    assert n.activity[0] == front[0];
    IdleDropsHead(n.(clock := pass.now), pass.idle, front);
    QueueOfPass(m, pass);
    if Flush(q).Flushed? {
      BeforeFlushKeepsValid(m, pass);
      RemoveAllKeepsFront(q, q.toRemove, front[1..]);
    }
  }

  /** At each pass the descriptors that have still to be notified are left alone. */
  ghost predicate AllLeave(m: Monitor, passes: seq<Pass>, front: seq<Node>)
    decreases passes
  {
    passes == [] || front == [] ||
    (Leaves(m, passes[0], front) &&
     match Flush(BeforeFlush(m, passes[0]))
     case LookupFailed => true
     case Flushed(n) => AllLeave(n, passes[1..], front[1..]))
  }

  /**
   Fairness: if the first descriptors of the list have expired and have no activity of their
   own, then each pass notifies the next of them, oldest first, whatever the others do and
   however long the passes take.
   */
  lemma {:induction false} ExpiredAreNotifiedInOrder(m: Monitor, passes: seq<Pass>, front: seq<Node>)
    requires Settled(m) && InEnvironment(m, passes) && AllLeave(m, passes, front)
    requires front <= m.activity && |passes| <= |front|
    ensures |NotifiedInRun(m, passes)| <= |passes|
    ensures RunPasses(m, passes).Flushed? ==> |NotifiedInRun(m, passes)| == |passes|
    ensures forall k :: 0 <= k < |NotifiedInRun(m, passes)| ==> NotifiedInRun(m, passes)[k] == front[k].fd
    decreases passes
  {
    hide Settled, Environment, Flush, BeforeFlush, Notified, Leaves;
    if passes != [] {
      PassNotifiesOldest(m, passes[0], front);
      if Flush(BeforeFlush(m, passes[0])).Flushed? {
        SettledIsValid(m);
        PassKeepsSettled(m, passes[0]);
        var n := Flush(BeforeFlush(m, passes[0])).m;
        ExpiredAreNotifiedInOrder(n, passes[1..], front[1..]);
        assert NotifiedInRun(m, passes) == [front[0].fd] + NotifiedInRun(n, passes[1..]);
      } else {
        assert NotifiedInRun(m, passes) == [front[0].fd];
      }
    }
  }
}
