/**
 The event monitor: a map of listeners and a list of their deadlines, oldest first, that
 refer to each other; callbacks that change both while a pass walks over them; and removals
 that wait until the end of the pass.
 */
module EventMonitor {

  type Fd = nat

  datatype ListenOn = ReadIsPossible | WriteIsPossible | ReadWriteIsPossible

  const INACTIVITY_PERIOD: int := 20

  /** A node of the activity list; `id` stands for its address, which an iterator keeps. */
  datatype Node = Node(id: nat, deadline: int, fd: Fd)

  /** A listener with the iterator to its node. */
  datatype Listener = Listener(timer: nat)

  /** `interest` is what the kernel was told last; `clock` is the last time that was read. */
  datatype Monitor = Monitor(
    listeners: map<Fd, Listener>,
    activity: seq<Node>,
    toRemove: seq<Fd>,
    clearRequested: bool,
    interest: map<Fd, ListenOn>,
    nextId: nat,
    clock: int)

  function NewMonitor(nextId: nat, clock: int): Monitor {
    Monitor(map[], [], [], false, map[], nextId, clock)
  }

  // ---- The invariant ----

  /** Each node belongs to the listener of its descriptor, and each listener has one node. */
  ghost predicate Linked(listeners: map<Fd, Listener>, activity: seq<Node>) {
    (forall i :: 0 <= i < |activity| ==>
       activity[i].fd in listeners && listeners[activity[i].fd].timer == activity[i].id) &&
    (forall fd :: fd in listeners ==> HasNode(activity, fd)) &&
    (forall i, j :: 0 <= i < j < |activity| ==> activity[i].fd != activity[j].fd && activity[i].id != activity[j].id)
  }

  ghost predicate HasNode(activity: seq<Node>, fd: Fd) {
    exists i :: 0 <= i < |activity| && activity[i].fd == fd
  }

  /** Oldest deadline first, and none later than `latest`. */
  ghost predicate Ordered(activity: seq<Node>, latest: int) {
    (forall i, j :: 0 <= i < j < |activity| ==> activity[i].deadline <= activity[j].deadline) &&
    (forall i :: 0 <= i < |activity| ==> activity[i].deadline <= latest)
  }

  ghost predicate Known(activity: seq<Node>, nextId: nat) {
    forall i :: 0 <= i < |activity| ==> activity[i].id < nextId
  }

  ghost predicate Valid(m: Monitor) {
    Linked(m.listeners, m.activity) && Ordered(m.activity, m.clock + INACTIVITY_PERIOD) &&
    Known(m.activity, m.nextId) && m.interest.Keys == m.listeners.Keys
  }

  // ---- What callbacks may ask for ----

  datatype Action = Add(fd: Fd, events: ListenOn) | Modify(fd: Fd, events: ListenOn) | Remove(fd: Fd) | Clear

  /** An action and the time at which it is taken. */
  datatype Timed = Timed(action: Action, time: int)

  /** Time does not run backwards, a new descriptor is fresh, a modified one is known. */
  predicate Allowed(m: Monitor, t: Timed) {
    m.clock <= t.time &&
    (t.action.Add? ==> t.action.fd !in m.listeners) &&
    (t.action.Modify? ==> t.action.fd in m.listeners)
  }

  function Perform(m: Monitor, t: Timed): Monitor {
    match t.action
    case Add(fd, events) =>
      m.(activity := m.activity + [Node(m.nextId, t.time + INACTIVITY_PERIOD, fd)],
         listeners := m.listeners[fd := Listener(m.nextId)],
         interest := m.interest[fd := events], nextId := m.nextId + 1, clock := t.time)
    case Modify(fd, events) => m.(interest := m.interest[fd := events], clock := t.time)
    case Remove(fd) => m.(toRemove := m.toRemove + [fd], clock := t.time)
    case Clear => m.(clearRequested := true, clock := t.time)
  }

  function PerformAll(m: Monitor, actions: seq<Timed>): Monitor
    decreases actions
  {
    if actions == [] then m else PerformAll(Perform(m, actions[0]), actions[1..])
  }

  predicate AllAllowed(m: Monitor, actions: seq<Timed>)
    decreases actions
  {
    actions == [] || (Allowed(m, actions[0]) && AllAllowed(Perform(m, actions[0]), actions[1..]))
  }

  // ---- Activity ----

  /** The position of the node that an iterator refers to, or the end of the list. */
  function Position(activity: seq<Node>, id: nat): (i: nat)
    ensures i <= |activity|
    ensures i < |activity| ==> activity[i].id == id
    ensures forall k :: 0 <= k < i ==> activity[k].id != id
  {
    if activity == [] || activity[0].id == id then 0 else Position(activity[1..], id) + 1
  }

  function Without(activity: seq<Node>, id: nat): seq<Node> {
    var i := Position(activity, id);
    if i < |activity| then activity[..i] + activity[i + 1..] else activity
  }

  /** The node of `fd` gets a new deadline and is spliced to the end of the list. */
  function Touch(m: Monitor, fd: Fd, now: int): Monitor {
    if fd !in m.listeners then m
    else
      var id := m.listeners[fd].timer;
      m.(activity := Without(m.activity, id) + [Node(id, now + INACTIVITY_PERIOD, fd)], clock := now)
  }

  /** A callback of the listener of `fd`: what it asks for, and when it has returned. */
  datatype Call = Call(fd: Fd, actions: seq<Timed>, now: int)

  function Dispatch(m: Monitor, call: Call): Monitor {
    Touch(PerformAll(m, call.actions), call.fd, call.now)
  }

  predicate CallAllowed(m: Monitor, call: Call) {
    AllAllowed(m, call.actions) && PerformAll(m, call.actions).clock <= call.now
  }

  function DispatchAll(m: Monitor, calls: seq<Call>): Monitor
    decreases calls
  {
    if calls == [] then m else DispatchAll(Dispatch(m, calls[0]), calls[1..])
  }

  predicate AllCallsAllowed(m: Monitor, calls: seq<Call>)
    decreases calls
  {
    calls == [] || (CallAllowed(m, calls[0]) && AllCallsAllowed(Dispatch(m, calls[0]), calls[1..]))
  }

  /** The descriptor that an idle pass at time `now` notifies, if any: the head of the list. */
  predicate HasExpired(m: Monitor, now: int) {
    m.activity != [] && m.activity[0].deadline <= now
  }

  /** What an idle callback does, for a descriptor that is not chosen yet. */
  datatype IdleCall = IdleCall(actions: seq<Timed>, now: int)

  function IdlePass(m: Monitor, now: int, idle: IdleCall): Monitor {
    var n := m.(clock := now);
    if HasExpired(m, now) then Dispatch(n, Call(m.activity[0].fd, idle.actions, idle.now)) else n
  }

  // ---- Removal ----

  function RemoveNow(m: Monitor, fd: Fd): Monitor
    requires fd in m.listeners
  {
    m.(activity := Without(m.activity, m.listeners[fd].timer), listeners := m.listeners - {fd}, interest := m.interest - {fd})
  }

  datatype FlushResult = Flushed(m: Monitor) | LookupFailed

  /** Removes what was queued; `LookupFailed` where the source asserts that a listener is found. */
  function RemoveAll(m: Monitor, fds: seq<Fd>): FlushResult
    decreases fds
  {
    if fds == [] then Flushed(m)
    else if fds[0] !in m.listeners then LookupFailed
    else RemoveAll(RemoveNow(m, fds[0]), fds[1..])
  }

  function Flush(m: Monitor): FlushResult {
    if m.clearRequested then Flushed(NewMonitor(m.nextId, m.clock))
    else match RemoveAll(m, m.toRemove)
         case LookupFailed => LookupFailed
         case Flushed(n) => Flushed(n.(toRemove := []))
  }

  /** Everything between two waits: ready callbacks, one look at the idle ones, removals. */
  datatype Pass = Pass(calls: seq<Call>, now: int, idle: IdleCall)

  function BeforeFlush(m: Monitor, pass: Pass): Monitor {
    IdlePass(DispatchAll(m, pass.calls), pass.now, pass.idle)
  }

  // ---- The monitor object ----

  class FdEventMonitor {
    var listeners: map<Fd, Listener>
    var fdActivityTimestamps: seq<Node>
    var fdsToRemove: seq<Fd>
    var regShouldBeCleared: bool
    var interest: map<Fd, ListenOn>
    var nextId: nat
    var clock: int

    function Value(): Monitor
      reads this
    {
      Monitor(listeners, fdActivityTimestamps, fdsToRemove, regShouldBeCleared, interest, nextId, clock)
    }

    constructor (clock: int)
      ensures Value() == NewMonitor(0, clock)
    {
      listeners, fdActivityTimestamps, fdsToRemove := map[], [], [];
      regShouldBeCleared, interest, nextId := false, map[], 0;
      this.clock := clock;
    }

    /** Puts a node at the end of the list, with the listener that refers to it. */
    method AddListener(fd: Fd, events: ListenOn, now: int)
      requires fd !in listeners
      modifies this
      ensures Value() == Perform(old(Value()), Timed(Add(fd, events), now))
    {
      fdActivityTimestamps := fdActivityTimestamps + [Node(nextId, now + INACTIVITY_PERIOD, fd)];
      var timer := fdActivityTimestamps[|fdActivityTimestamps| - 1].id;
      listeners := listeners[fd := Listener(timer)];
      interest := interest[fd := events];
      nextId, clock := nextId + 1, now;
    }

    method ModifyInterest(fd: Fd, events: ListenOn, now: int)
      requires fd in listeners
      modifies this
      ensures Value() == Perform(old(Value()), Timed(Modify(fd, events), now))
    {
      interest := interest[fd := events];
      clock := now;
    }

    method DeferredRemove(fd: Fd, now: int)
      modifies this
      ensures Value() == Perform(old(Value()), Timed(Remove(fd), now))
    {
      fdsToRemove := fdsToRemove + [fd];
      clock := now;
    }

    method DeferredClear(now: int)
      modifies this
      ensures Value() == Perform(old(Value()), Timed(Clear, now))
    {
      regShouldBeCleared := true;
      clock := now;
    }

    /** A callback, as the requests it makes of the monitor. */
    method Callback(actions: seq<Timed>)
      requires AllAllowed(Value(), actions)
      modifies this
      ensures Value() == PerformAll(old(Value()), actions)
    {
      for i := 0 to |actions|
        invariant AllAllowed(Value(), actions[i..])
        invariant PerformAll(Value(), actions[i..]) == PerformAll(old(Value()), actions)
      {
        ghost var rest := actions[i..];
        assert rest[0] == actions[i] && rest[1..] == actions[i + 1..];
        var t := actions[i];
        match t.action
        case Add(fd, events) => AddListener(fd, events, t.time);
        case Modify(fd, events) => ModifyInterest(fd, events, t.time);
        case Remove(fd) => DeferredRemove(fd, t.time);
        case Clear => DeferredClear(t.time);
      }
    }

    /** A listener's `fd_is_ready` or `fd_is_idle`: the callback, then the splice of its node. */
    method FdIsActive(call: Call)
      requires call.fd in listeners && AllAllowed(Value(), call.actions)
      modifies this
      ensures Value() == Dispatch(old(Value()), call)
    {
      GrowsOnly(Value(), call.actions);
      Callback(call.actions);
      var timer := listeners[call.fd].timer;
      fdActivityTimestamps := Without(fdActivityTimestamps, timer) + [Node(timer, call.now + INACTIVITY_PERIOD, call.fd)];
      clock := call.now;
    }

    /**
     Walks the list from its head. The iterator stays with its node, which the callback has
     moved to the end, so the walk ends after one notification at most.
     */
    method ProcessIdleFds(now: int, idle: nat -> IdleCall)
      requires Valid(Value())
      requires clock <= now
      requires HasExpired(Value(), now) ==> AllAllowed(Value().(clock := now), idle(0).actions)
      modifies this
      ensures Value() == IdlePass(old(Value()), now, idle(0))
    {
      hide Valid, Dispatch, AllAllowed;
      clock := now;
      var i, round := 0, 0;
      while i != |fdActivityTimestamps|
        invariant i == |fdActivityTimestamps| || (i == 0 && round == 0)
        invariant if round == 0 then i == 0 && Value() == old(Value()).(clock := now)
                  else HasExpired(old(Value()), now) && Value() == IdlePass(old(Value()), now, idle(0))
        decreases |fdActivityTimestamps| - i
      {
        if fdActivityTimestamps[i].deadline > now {
          break;
        }
        var node := fdActivityTimestamps[i];
        HeadIsRegistered(old(Value()), now, idle(0));
        FdIsActive(Call(node.fd, idle(round).actions, idle(round).now));
        i := Position(fdActivityTimestamps, node.id);
        i, round := i + 1, round + 1;
      }
    }

    method FlushFdsToRemove() returns (ok: bool)
      modifies this
      ensures ok <==> Flush(old(Value())).Flushed?
      ensures ok ==> Value() == Flush(old(Value())).m
    {
      if regShouldBeCleared {
        listeners, fdActivityTimestamps, fdsToRemove := map[], [], [];
        regShouldBeCleared, interest := false, map[];
        return true;
      }
      for i := 0 to |fdsToRemove|
        invariant fdsToRemove == old(fdsToRemove) && regShouldBeCleared == old(regShouldBeCleared)
        invariant RemoveAll(Value(), fdsToRemove[i..]) == RemoveAll(old(Value()), old(fdsToRemove))
      {
        ghost var rest := fdsToRemove[i..];
        var fd := fdsToRemove[i];
        assert rest[0] == fd && rest[1..] == fdsToRemove[i + 1..];
        if fd !in listeners {
          return false;
        }
        fdActivityTimestamps := Without(fdActivityTimestamps, listeners[fd].timer);
        listeners, interest := listeners - {fd}, interest - {fd};
      }
      fdsToRemove := [];
      return true;
    }

    /** One pass over what the wait returned; `more` is false once nobody listens. */
    method WaitForAndDispatchEvents(calls: seq<Call>, now: int, idle: nat -> IdleCall) returns (more: bool, ok: bool)
      requires Valid(Value()) && AllCallsAllowed(Value(), calls)
      requires forall k :: 0 <= k < |calls| ==> calls[k].fd in listeners
      requires DispatchAll(Value(), calls).clock <= now
      requires var m := DispatchAll(Value(), calls);
               HasExpired(m, now) ==> CallAllowed(m.(clock := now), Call(m.activity[0].fd, idle(0).actions, idle(0).now))
      modifies this
      ensures more <==> old(listeners) != map[]
      ensures more ==> var r := Flush(BeforeFlush(old(Value()), Pass(calls, now, idle(0))));
                       ok == r.Flushed? && (ok ==> Value() == r.m)
      ensures !more ==> ok && Value() == old(Value())
    {
      if |listeners| == 0 {
        return false, true;
      }
      for i := 0 to |calls|
        invariant AllCallsAllowed(Value(), calls[i..]) && Valid(Value())
        invariant DispatchAll(Value(), calls[i..]) == DispatchAll(old(Value()), calls)
        invariant old(listeners).Keys <= listeners.Keys
      {
        ghost var rest := calls[i..];
        assert rest[0] == calls[i] && rest[1..] == calls[i + 1..];
        DispatchKeepsValid(Value(), calls[i]);
        FdIsActive(calls[i]);
      }
      ProcessIdleFds(now, idle);
      ok := FlushFdsToRemove();
      more := true;
    }
  }

  // ---- Each operation keeps the invariant ----

  /** Callbacks add listeners; they never take one away. */
  lemma {:induction false} GrowsOnly(m: Monitor, actions: seq<Timed>)
    ensures m.listeners.Keys <= PerformAll(m, actions).listeners.Keys
    decreases actions
  {
    if actions != [] { GrowsOnly(Perform(m, actions[0]), actions[1..]); }
  }

  lemma PushKeepsLinked(listeners: map<Fd, Listener>, activity: seq<Node>, node: Node)
    requires Linked(listeners, activity) && node.fd !in listeners
    requires forall i :: 0 <= i < |activity| ==> activity[i].id != node.id
    ensures Linked(listeners[node.fd := Listener(node.id)], activity + [node])
  {
    var l, a := listeners[node.fd := Listener(node.id)], activity + [node];
    forall fd | fd in l ensures HasNode(a, fd) {
      if fd == node.fd {
        assert a[|activity|].fd == fd;
      } else {
        assert HasNode(activity, fd);
        var i :| 0 <= i < |activity| && activity[i].fd == fd;
        assert a[i].fd == fd;
      }
    }
  }

  lemma PushKeepsOrdered(activity: seq<Node>, node: Node, latest: int)
    requires Ordered(activity, latest) && latest <= node.deadline
    ensures Ordered(activity + [node], node.deadline)
  {
  }

  /** Where the node of a registered descriptor is, and what is left without it. */
  lemma NodeOf(listeners: map<Fd, Listener>, activity: seq<Node>, fd: Fd) returns (i: nat)
    requires Linked(listeners, activity) && fd in listeners
    ensures i < |activity| && activity[i].fd == fd && activity[i].id == listeners[fd].timer
    ensures i == Position(activity, listeners[fd].timer)
  {
    assert HasNode(activity, fd);
    i :| 0 <= i < |activity| && activity[i].fd == fd;
    var k := Position(activity, activity[i].id);
    assert k <= i;
  }

  function DropNode(activity: seq<Node>, i: nat): (rest: seq<Node>)
    requires i < |activity|
    ensures |rest| == |activity| - 1
    ensures forall k :: 0 <= k < |rest| ==> rest[k] == activity[if k < i then k else k + 1]
  {
    activity[..i] + activity[i + 1..]
  }

  lemma DropKeepsNode(activity: seq<Node>, i: nat, fd: Fd)
    requires i < |activity| && activity[i].fd != fd && HasNode(activity, fd)
    ensures HasNode(DropNode(activity, i), fd)
  {
    var k :| 0 <= k < |activity| && activity[k].fd == fd;
    assert DropNode(activity, i)[if k < i then k else k - 1].fd == fd;
  }

  lemma DropKeepsLinked(listeners: map<Fd, Listener>, activity: seq<Node>, i: nat)
    requires Linked(listeners, activity) && i < |activity|
    ensures Linked(listeners - {activity[i].fd}, DropNode(activity, i))
  {
    hide DropNode, HasNode;
    var fd := activity[i].fd;
    forall g | g in listeners - {fd} ensures HasNode(DropNode(activity, i), g) {
      DropKeepsNode(activity, i, g);
    }
  }

  lemma WithoutKeepsLinked(listeners: map<Fd, Listener>, activity: seq<Node>, fd: Fd)
    requires Linked(listeners, activity) && fd in listeners
    ensures var rest := Without(activity, listeners[fd].timer);
            Linked(listeners - {fd}, rest) &&
            forall k :: 0 <= k < |rest| ==> rest[k].id != listeners[fd].timer
  {
    hide Linked, DropNode;
    var i := NodeOf(listeners, activity, fd);
    DropKeepsLinked(listeners, activity, i);
    DropLeavesOthers(listeners, activity, i);
    WithoutDrops(activity, listeners[fd].timer);
  }

  lemma WithoutDrops(activity: seq<Node>, id: nat)
    requires Position(activity, id) < |activity|
    ensures Without(activity, id) == DropNode(activity, Position(activity, id))
  {
  }

  lemma DropLeavesOthers(listeners: map<Fd, Listener>, activity: seq<Node>, i: nat)
    requires Linked(listeners, activity) && i < |activity|
    ensures forall k :: 0 <= k < |DropNode(activity, i)| ==> DropNode(activity, i)[k].id != activity[i].id
  {
  }

  lemma WithoutKeepsOrder(activity: seq<Node>, id: nat, latest: int, nextId: nat)
    requires Ordered(activity, latest) && Known(activity, nextId)
    ensures Ordered(Without(activity, id), latest) && Known(Without(activity, id), nextId)
  {
    var i := Position(activity, id);
    if i < |activity| {
      var rest := activity[..i] + activity[i + 1..];
      assert forall k :: 0 <= k < |rest| ==> rest[k] == activity[if k < i then k else k + 1];
    }
  }

  lemma PerformKeepsValid(m: Monitor, t: Timed)
    requires Valid(m) && Allowed(m, t)
    ensures Valid(Perform(m, t)) && Perform(m, t).clock == t.time
  {
    hide Linked;
    if t.action.Add? {
      var node := Node(m.nextId, t.time + INACTIVITY_PERIOD, t.action.fd);
      PushKeepsLinked(m.listeners, m.activity, node);
      PushKeepsOrdered(m.activity, node, m.clock + INACTIVITY_PERIOD);
    }
  }

  lemma {:induction false} PerformAllKeepsValid(m: Monitor, actions: seq<Timed>)
    requires Valid(m) && AllAllowed(m, actions)
    ensures Valid(PerformAll(m, actions)) && m.clock <= PerformAll(m, actions).clock
    decreases actions
  {
    if actions != [] {
      PerformKeepsValid(m, actions[0]);
      PerformAllKeepsValid(Perform(m, actions[0]), actions[1..]);
    }
  }

  lemma TouchKeepsValid(m: Monitor, fd: Fd, now: int)
    requires Valid(m) && m.clock <= now
    ensures Valid(Touch(m, fd, now)) && Touch(m, fd, now).clock == if fd in m.listeners then now else m.clock
  {
    hide Linked, Without;
    if fd in m.listeners {
      var id := m.listeners[fd].timer;
      var node := Node(id, now + INACTIVITY_PERIOD, fd);
      WithoutKeepsLinked(m.listeners, m.activity, fd);
      PushKeepsLinked(m.listeners - {fd}, Without(m.activity, id), node);
      assert (m.listeners - {fd})[fd := Listener(id)] == m.listeners;
      WithoutKeepsOrder(m.activity, id, m.clock + INACTIVITY_PERIOD, m.nextId);
      PushKeepsOrdered(Without(m.activity, id), node, m.clock + INACTIVITY_PERIOD);
      TimerIsKnown(m, fd);
    }
  }

  lemma TimerIsKnown(m: Monitor, fd: Fd)
    requires Valid(m) && fd in m.listeners
    ensures m.listeners[fd].timer < m.nextId
  {
    var i := NodeOf(m.listeners, m.activity, fd);
  }

  lemma DispatchKeepsValid(m: Monitor, call: Call)
    requires Valid(m) && CallAllowed(m, call)
    ensures Valid(Dispatch(m, call)) && m.listeners.Keys <= Dispatch(m, call).listeners.Keys
    ensures m.clock <= Dispatch(m, call).clock
  {
    hide Valid;
    GrowsOnly(m, call.actions);
    PerformAllKeepsValid(m, call.actions);
    TouchKeepsValid(PerformAll(m, call.actions), call.fd, call.now);
  }

  lemma PositionAtEnd(rest: seq<Node>, node: Node)
    requires forall k :: 0 <= k < |rest| ==> rest[k].id != node.id
    ensures Position(rest + [node], node.id) == |rest|
  {
    assert (rest + [node])[|rest|].id == node.id;
  }

  /** After a callback the node of its descriptor is the last of the list. */
  lemma SplicedToEnd(m: Monitor, fd: Fd, idle: IdleCall)
    requires Valid(m) && fd in m.listeners && AllAllowed(m, idle.actions)
    ensures var n := Dispatch(m, Call(fd, idle.actions, idle.now));
            n.activity != [] && Position(n.activity, m.listeners[fd].timer) == |n.activity| - 1
  {
    hide Linked, Without;
    var k := PerformAll(m, idle.actions);
    PerformAllKeepsValid(m, idle.actions);
    PerformAllKeepsListener(m, idle.actions, fd);
    WithoutKeepsLinked(k.listeners, k.activity, fd);
    var id := m.listeners[fd].timer;
    PositionAtEnd(Without(k.activity, id), Node(id, idle.now + INACTIVITY_PERIOD, fd));
  }

  /** The head of the list has a listener, and its notification puts it at the end. */
  lemma HeadIsRegistered(m: Monitor, now: int, idle: IdleCall)
    requires Valid(m) && m.activity != [] && m.clock <= now && AllAllowed(m.(clock := now), idle.actions)
    ensures var node := m.activity[0];
            var n := Dispatch(m.(clock := now), Call(node.fd, idle.actions, idle.now));
            node.fd in m.listeners && n.activity != [] && Position(n.activity, node.id) == |n.activity| - 1
  {
    hide Dispatch, AllAllowed;
    AdvanceClock(m, now);
    var node := m.activity[0];
    assert m.listeners[node.fd].timer == node.id;
    SplicedToEnd(m.(clock := now), node.fd, idle);
  }

  lemma AdvanceClock(m: Monitor, now: int)
    requires Valid(m) && m.clock <= now
    ensures Valid(m.(clock := now))
  {
    hide Linked;
  }

  lemma {:induction false} PerformAllKeepsListener(m: Monitor, actions: seq<Timed>, fd: Fd)
    requires fd in m.listeners && AllAllowed(m, actions)
    ensures fd in PerformAll(m, actions).listeners && PerformAll(m, actions).listeners[fd] == m.listeners[fd]
    decreases actions
  {
    if actions != [] { PerformAllKeepsListener(Perform(m, actions[0]), actions[1..], fd); }
  }
}
