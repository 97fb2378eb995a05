/**
 The wake-up protocol between publisher threads and one reactor (src/reactor.cpp
 `WakeState`, `drain_stream_wakeups`, `make_notifier`, `close_connection`;
 src/sse.cpp `enqueue`, `begin_close`, `maybe_heartbeat`, `pull`).

 Every critical section, eventfd operation and atomic load is one atomic step of
 a state machine over any number of publisher threads, subscribers and
 connections. `Run` executes an arbitrary schedule; the invariant and its
 consequences hold after every schedule.
 */
module WakeProtocol {
  import opened Text
  import SseQueue

  type Fd = nat
  type StreamId = nat
  type Thread = nat
  type Source = nat

  /** Where a publisher thread stands between two atomic steps. */
  datatype Publisher =
    | Resting
    | Notifying(id: StreamId)   // left the subscriber's critical section holding its notifier
    | Listing(id: StreamId)     // saw the reactor alive, about to lock the pending list
    | Signalling                // about to write the eventfd

  datatype Phase =
    | Request                     // no stream source
    | Head(source: Source)        // owns a source whose head is being written
    | Streaming(source: Source, id: StreamId, writePending: bool)

  datatype Reactor =
    | Waiting          // in epoll_wait
    | Turn             // working through one batch of events
    | Drained          // eventfd read, pending list not yet taken
    | Driving(fd: Fd)  // inside drive_stream of one connection
    | Stopped

  datatype System = System(
    subscribers: map<Source, SseQueue.Subscriber>,
    publishers: map<Thread, Publisher>,
    pending: seq<StreamId>,
    counter: nat,
    alive: bool,
    reactor: Reactor,
    seen: bool,                    // the current batch holds the eventfd, not yet drained
    todo: seq<StreamId>,           // ids taken from the pending list, not yet processed
    connections: map<Fd, Phase>,
    streaming: map<StreamId, Fd>,
    nextId: StreamId)

  function Start(threads: set<Thread>): System {
    System(map[], map t | t in threads :: Resting, [], 0, true, Waiting, false, [], map[], map[], 1)
  }

  datatype Action =
    // publishers
    | Subscribe(source: Source, budget: nat, interval: int, retry: Option<string>, now: int)
    | Publish(t: Thread, source: Source, frame: string)
    | Finish(t: Thread, source: Source)
    | Beat(t: Thread, source: Source, now: int)
    | CheckAlive(t: Thread)
    | ListStream(t: Thread)
    | Signal(t: Thread)
    // reactor
    | Wake(withEvent: bool)
    | Accept(fd: Fd)
    | Take(fd: Fd, source: Source)
    | Attach(fd: Fd)
    | Ready(fd: Fd)
    | DrainEvent
    | TakePending
    | Notified
    | WriteBlocked
    | WriteDone
    | PullStream(now: int)
    | Close(fd: Fd)
    | EndTurn
    | Stop

  predicate ByPublisher(a: Action) {
    a.Subscribe? || a.Publish? || a.Finish? || a.Beat? || a.CheckAlive? || a.ListStream? || a.Signal?
  }

  // ------------------------------------------------------------- publisher steps

  /** A publisher leaves a subscriber's critical section with a copy of its notifier. */
  function Leave(s: System, t: Thread, source: Source, sub: SseQueue.Subscriber, wake: Option<StreamId>): System {
    s.(subscribers := s.subscribers[source := sub],
       publishers := s.publishers[t := if wake.Some? then Notifying(wake.value) else Resting])
  }

  predicate CanEnter(s: System, t: Thread, source: Source) {
    t in s.publishers && s.publishers[t].Resting? && source in s.subscribers
  }

  function DoPublish(s: System, t: Thread, source: Source, frame: string): Option<System> {
    if !CanEnter(s, t, source) || frame == "" then None
    else
      var sub := s.subscribers[source];
      Some(Leave(s, t, source, SseQueue.Enqueue(sub, frame), if sub.closed then None else sub.notifier))
  }

  function DoFinish(s: System, t: Thread, source: Source): Option<System> {
    if !CanEnter(s, t, source) then None
    else
      var sub := s.subscribers[source];
      Some(Leave(s, t, source, SseQueue.BeginClose(sub), sub.notifier))
  }

  function DoBeat(s: System, t: Thread, source: Source, now: int): Option<System> {
    if !CanEnter(s, t, source) then None
    else
      var sub := s.subscribers[source];
      Some(Leave(s, t, source, SseQueue.Heartbeat(sub, now),
                 if SseQueue.HeartbeatDue(sub, now) then sub.notifier else None))
  }

  function DoCheckAlive(s: System, t: Thread): Option<System> {
    if t !in s.publishers || !s.publishers[t].Notifying? then None
    else Some(s.(publishers := s.publishers[t := if s.alive then Listing(s.publishers[t].id) else Resting]))
  }

  /** `notify_stream` under the wake mutex: at most one pending entry per stream. */
  function DoListStream(s: System, t: Thread): Option<System> {
    if t !in s.publishers || !s.publishers[t].Listing? then None
    else
      var id := s.publishers[t].id;
      Some(s.(pending := if id in s.pending then s.pending else s.pending + [id],
              publishers := s.publishers[t := Signalling]))
  }

  function DoSignal(s: System, t: Thread): Option<System> {
    if t !in s.publishers || !s.publishers[t].Signalling? then None
    else Some(s.(counter := s.counter + 1, publishers := s.publishers[t := Resting]))
  }

  // --------------------------------------------------------------- reactor steps

  function SourceOf(p: Phase): Option<Source> {
    match p
    case Request => None
    case Head(source) => Some(source)
    case Streaming(source, _, _) => Some(source)
  }

  /** epoll_wait returns; a batch may leave the eventfd out, but only reports it when it is raised. */
  function DoWake(s: System, withEvent: bool): Option<System> {
    if !s.reactor.Waiting? || (withEvent && s.counter == 0) then None
    else Some(s.(reactor := Turn, seen := withEvent))
  }

  function DoAccept(s: System, fd: Fd): Option<System> {
    if !s.reactor.Turn? || fd in s.connections then None
    else Some(s.(connections := s.connections[fd := Request]))
  }

  /** A dispatched response hands its source to the connection; a source serves one connection. */
  predicate Fresh(s: System, source: Source) {
    && source in s.subscribers
    && !s.subscribers[source].detached
    && s.subscribers[source].notifier.None?
    && forall fd :: fd in s.connections ==> SourceOf(s.connections[fd]) != Some(source)
  }

  function DoTake(s: System, fd: Fd, source: Source): Option<System> {
    if !s.reactor.Turn? || fd !in s.connections || !s.connections[fd].Request? || !Fresh(s, source) then None
    else Some(s.(connections := s.connections[fd := Head(source)]))
  }

  /** The head is written: a never-used id, the notifier, the Streaming state, and straight into drive_stream. */
  function DoAttach(s: System, fd: Fd): Option<System> {
    if !s.reactor.Turn? || fd !in s.connections || !s.connections[fd].Head? then None
    else
      var source := s.connections[fd].source;
      if source !in s.subscribers then None
      else
        Some(s.(streaming := s.streaming[s.nextId := fd],
                nextId := s.nextId + 1,
                subscribers := s.subscribers[source := SseQueue.Attach(s.subscribers[source], s.nextId)],
                connections := s.connections[fd := Streaming(source, s.nextId, false)],
                reactor := Driving(fd)))
  }

  function DoReady(s: System, fd: Fd): Option<System> {
    if !s.reactor.Turn? || fd !in s.connections || !s.connections[fd].Streaming? then None
    else Some(s.(reactor := Driving(fd)))
  }

  function DoDrainEvent(s: System): Option<System> {
    if !s.reactor.Turn? || !s.seen || s.todo != [] then None
    else Some(s.(counter := 0, seen := false, reactor := Drained))
  }

  function DoTakePending(s: System): Option<System> {
    if !s.reactor.Drained? then None
    else Some(s.(todo := s.pending, pending := [], reactor := Turn))
  }

  function DoNotified(s: System): Option<System> {
    if !s.reactor.Turn? || s.todo == [] then None
    else
      var id, next := s.todo[0], s.(todo := s.todo[1..]);
      if id in s.streaming && s.streaming[id] in s.connections && s.connections[s.streaming[id]].Streaming? then
        Some(next.(reactor := Driving(s.streaming[id])))
      else Some(next)
  }

  predicate Writing(s: System, pending: bool) {
    && s.reactor.Driving? && s.reactor.fd in s.connections
    && s.connections[s.reactor.fd].Streaming? && s.connections[s.reactor.fd].writePending == pending
  }

  function DoWriteBlocked(s: System): Option<System> {
    if !Writing(s, true) then None else Some(s.(reactor := Turn))
  }

  function DoWriteDone(s: System): Option<System> {
    if !Writing(s, true) then None
    else
      var fd := s.reactor.fd;
      Some(s.(connections := s.connections[fd := s.connections[fd].(writePending := false)]))
  }

  /** Leaves the tables of `close_connection` without this descriptor and detaches its source. */
  function Closed(s: System, fd: Fd): System
    requires fd in s.connections
  {
    var source := SourceOf(s.connections[fd]);
    s.(connections := s.connections - {fd},
       streaming := map id | id in s.streaming && s.streaming[id] != fd :: s.streaming[id],
       subscribers := if source.Some? && source.value in s.subscribers
                      then s.subscribers[source.value := SseQueue.Detach(s.subscribers[source.value])]
                      else s.subscribers)
  }

  /** One round of drive_stream with nothing left to write. */
  function DoPull(s: System, now: int): Option<System> {
    if !Writing(s, false) then None
    else
      var fd := s.reactor.fd;
      var source := s.connections[fd].source;
      if source !in s.subscribers then None
      else
        var (sub, outcome) := SseQueue.Pull(s.subscribers[source], now);
        var next := s.(subscribers := s.subscribers[source := sub]);
        match outcome
        case Wrote(text) =>
          if text == "" then Some(next.(reactor := Turn))
          else Some(next.(connections := s.connections[fd := s.connections[fd].(writePending := true)]))
        case Idle => Some(next.(reactor := Turn))
        case Finished => Some(Closed(next, fd).(reactor := Turn))
  }

  /** Deadlines, transport errors and hang-ups end a connection at any point of a turn or of its own drive. */
  function DoClose(s: System, fd: Fd): Option<System> {
    if fd in s.connections && (s.reactor.Turn? || s.reactor == Driving(fd)) then
      Some(Closed(s, fd).(reactor := Turn))
    else None
  }

  function DoEndTurn(s: System): Option<System> {
    if !s.reactor.Turn? || s.seen || s.todo != [] then None else Some(s.(reactor := Waiting))
  }

  function DoStop(s: System): Option<System> {
    if !s.reactor.Waiting? && !s.reactor.Turn? then None else Some(s.(reactor := Stopped, alive := false))
  }

  /** The state after an action, or nothing when the action is not enabled. */
  function Step(s: System, a: Action): Option<System> {
    match a
    case Subscribe(source, budget, interval, retry, now) =>
      if source in s.subscribers || retry == Some("") then None
      else Some(s.(subscribers := s.subscribers[source := SseQueue.New(budget, interval, retry, now)]))
    case Publish(t, source, frame) => DoPublish(s, t, source, frame)
    case Finish(t, source) => DoFinish(s, t, source)
    case Beat(t, source, now) => DoBeat(s, t, source, now)
    case CheckAlive(t) => DoCheckAlive(s, t)
    case ListStream(t) => DoListStream(s, t)
    case Signal(t) => DoSignal(s, t)
    case Wake(withEvent) => DoWake(s, withEvent)
    case Accept(fd) => DoAccept(s, fd)
    case Take(fd, source) => DoTake(s, fd, source)
    case Attach(fd) => DoAttach(s, fd)
    case Ready(fd) => DoReady(s, fd)
    case DrainEvent => DoDrainEvent(s)
    case TakePending => DoTakePending(s)
    case Notified => DoNotified(s)
    case WriteBlocked => DoWriteBlocked(s)
    case WriteDone => DoWriteDone(s)
    case PullStream(now) => DoPull(s, now)
    case Close(fd) => DoClose(s, fd)
    case EndTurn => DoEndTurn(s)
    case Stop => DoStop(s)
  }

  /** A whole schedule; an action that is not enabled does nothing. */
  function Run(s: System, schedule: seq<Action>): System {
    if schedule == [] then s
    else
      var before := Run(s, schedule[..|schedule| - 1]);
      match Step(before, schedule[|schedule| - 1])
      case Some(after) => after
      case None => before
  }

  // ------------------------------------------------------------------- invariant

  ghost predicate IsStreaming(s: System, fd: Fd) { fd in s.connections && s.connections[fd].Streaming? }

  /** The tables: an id leads to the one connection that made it. */
  ghost predicate Tables(s: System) {
    && (forall id :: id in s.streaming ==>
          id < s.nextId && IsStreaming(s, s.streaming[id]) && s.connections[s.streaming[id]].id == id)
    && (forall fd :: IsStreaming(s, fd) ==>
          s.connections[fd].id in s.streaming && s.streaming[s.connections[fd].id] == fd)
    && (s.reactor.Driving? ==> IsStreaming(s, s.reactor.fd))
  }

  /** The sources: each serves one connection, and a streaming one holds that connection's notifier. */
  ghost predicate Sources(s: System) {
    && (forall fd :: fd in s.connections && SourceOf(s.connections[fd]).Some? ==>
          && SourceOf(s.connections[fd]).value in s.subscribers
          && !s.subscribers[SourceOf(s.connections[fd]).value].detached)
    && (forall fd, fd' :: fd in s.connections && fd' in s.connections && fd != fd' ==>
          SourceOf(s.connections[fd]).Some? ==> SourceOf(s.connections[fd]) != SourceOf(s.connections[fd']))
    && (forall fd :: IsStreaming(s, fd) ==>
          s.subscribers[s.connections[fd].source].notifier == Some(s.connections[fd].id))
    && (forall src :: src in s.subscribers ==> FramesNonEmpty(s.subscribers[src].queue))
  }

  ghost predicate FramesNonEmpty(q: seq<string>) { forall i :: 0 <= i < |q| ==> q[i] != "" }

  ghost predicate Distinct(ids: seq<StreamId>) { forall i, j :: 0 <= i < j < |ids| ==> ids[i] != ids[j] }

  ghost predicate SomeSignalling(s: System) { exists t :: t in s.publishers && s.publishers[t] == Signalling }

  /** A non-empty pending list is on its way to the reactor. */
  ghost predicate PendingIsAnnounced(s: System) {
    && Distinct(s.pending)
    && (s.seen ==> s.counter > 0)
    && (s.pending != [] ==> s.counter > 0 || s.reactor.Drained? || SomeSignalling(s))
  }

  ghost predicate InFlight(s: System, id: StreamId) {
    exists t :: t in s.publishers && (s.publishers[t] == Notifying(id) || s.publishers[t] == Listing(id))
  }

  predicate HasWork(sub: SseQueue.Subscriber) { sub.queue != [] || sub.closed }

  predicate Waits(s: System, source: Source) {
    source in s.subscribers && HasWork(s.subscribers[source])
  }

  /** Somebody is responsible for pulling this stream next. */
  ghost predicate Responsible(s: System, fd: Fd)
    requires IsStreaming(s, fd)
  {
    var id := s.connections[fd].id;
    || s.connections[fd].writePending
    || id in s.pending
    || id in s.todo
    || InFlight(s, id)
    || s.reactor == Driving(fd)
  }

  ghost predicate NothingLost(s: System) {
    forall fd :: IsStreaming(s, fd) && Waits(s, s.connections[fd].source) ==> Responsible(s, fd)
  }

  ghost predicate Turns(s: System) {
    && (s.alive <==> !s.reactor.Stopped?)
    && (s.reactor.Waiting? || s.reactor.Drained? ==> s.todo == [] && !s.seen)
  }

  ghost predicate Inv(s: System) {
    Turns(s) && Tables(s) && Sources(s) && PendingIsAnnounced(s) && (s.alive ==> NothingLost(s))
  }

  // ------------------------------------------------------ every step keeps it

  /** Moving one thread leaves the other threads where they were. */
  lemma OtherThreads(s: System, s': System, t: Thread)
    requires t in s.publishers && t in s'.publishers && s'.publishers == s.publishers[t := s'.publishers[t]]
    ensures forall id :: InFlight(s, id) && s.publishers[t] != Notifying(id) && s.publishers[t] != Listing(id) ==> InFlight(s', id)
    ensures SomeSignalling(s) && s.publishers[t] != Signalling ==> SomeSignalling(s')
    ensures s'.publishers[t].Notifying? || s'.publishers[t].Listing? ==> InFlight(s', s'.publishers[t].id)
    ensures s'.publishers[t].Signalling? ==> SomeSignalling(s')
  {
    forall id | InFlight(s, id) && s.publishers[t] != Notifying(id) && s.publishers[t] != Listing(id)
      ensures InFlight(s', id)
    {
      var u :| u in s.publishers && (s.publishers[u] == Notifying(id) || s.publishers[u] == Listing(id));
      assert s'.publishers[u] == s.publishers[u];
    }
    if SomeSignalling(s) && s.publishers[t] != Signalling {
      var u :| u in s.publishers && s.publishers[u] == Signalling;
      assert s'.publishers[u] == s.publishers[u];
    }
  }

  /** The three critical sections of a publisher: new work always comes with the stream's notifier. */
  lemma LeaveKeeps(s: System, t: Thread, source: Source, sub: SseQueue.Subscriber, wake: Option<StreamId>)
    requires Inv(s) && CanEnter(s, t, source)
    requires sub.notifier == s.subscribers[source].notifier && sub.detached == s.subscribers[source].detached
    requires FramesNonEmpty(sub.queue)
    requires HasWork(sub) && !HasWork(s.subscribers[source]) ==> wake == s.subscribers[source].notifier
    ensures Inv(Leave(s, t, source, sub, wake))
  {
    var s' := Leave(s, t, source, sub, wake);
    OtherThreads(s, s', t);
    forall fd | s'.alive && IsStreaming(s', fd) && Waits(s', s'.connections[fd].source)
      ensures Responsible(s', fd)
    {
      assert IsStreaming(s, fd);
      if Waits(s, s.connections[fd].source) {
        assert Responsible(s, fd);
      }
    }
  }

  lemma LongestFitElements(frames: seq<string>, room: nat)
    requires FramesNonEmpty(frames)
    ensures FramesNonEmpty(SseQueue.LongestFit(frames, room))
  {}

  lemma PublisherSteps(s: System, t: Thread, source: Source, frame: string, now: int)
    requires Inv(s) && CanEnter(s, t, source)
    ensures frame != "" ==> Inv(DoPublish(s, t, source, frame).value)
    ensures Inv(DoFinish(s, t, source).value)
    ensures Inv(DoBeat(s, t, source, now).value)
  {
    var sub := s.subscribers[source];
    if frame != "" {
      if |frame| <= sub.budget {
        LongestFitElements(sub.queue, sub.budget - |frame|);
      }
      LeaveKeeps(s, t, source, SseQueue.Enqueue(sub, frame), if sub.closed then None else sub.notifier);
    }
    LeaveKeeps(s, t, source, SseQueue.BeginClose(sub), sub.notifier);
    LeaveKeeps(s, t, source, SseQueue.Heartbeat(sub, now),
               if SseQueue.HeartbeatDue(sub, now) then sub.notifier else None);
  }

  /** A thread moved on: what it was carrying is now in the pending list, or still carried. */
  lemma ThreadMoved(s: System, s': System, t: Thread)
    requires NothingLost(s) && t in s.publishers
    requires s' == s.(publishers := s'.publishers, pending := s'.pending, counter := s'.counter)
    requires t in s'.publishers && s'.publishers == s.publishers[t := s'.publishers[t]]
    requires forall id :: id in s.pending ==> id in s'.pending
    requires s.publishers[t].Notifying? || s.publishers[t].Listing? ==>
      s.publishers[t].id in s'.pending || s'.publishers[t] == Listing(s.publishers[t].id)
    ensures NothingLost(s')
  {
    OtherThreads(s, s', t);
    forall fd | IsStreaming(s', fd) && Waits(s', s'.connections[fd].source)
      ensures Responsible(s', fd)
    {
      assert IsStreaming(s, fd) && Responsible(s, fd);
    }
  }

  lemma CheckAliveKeeps(s: System, t: Thread)
    requires Inv(s) && DoCheckAlive(s, t).Some?
    ensures Inv(DoCheckAlive(s, t).value)
  {
    var s' := DoCheckAlive(s, t).value;
    OtherThreads(s, s', t);
    if s.alive { ThreadMoved(s, s', t); }
  }

  lemma ListStreamKeeps(s: System, t: Thread)
    requires Inv(s) && DoListStream(s, t).Some?
    ensures Inv(DoListStream(s, t).value)
  {
    var s' := DoListStream(s, t).value;
    OtherThreads(s, s', t);
    if s.alive { ThreadMoved(s, s', t); }
  }

  lemma SignalKeeps(s: System, t: Thread)
    requires Inv(s) && DoSignal(s, t).Some?
    ensures Inv(DoSignal(s, t).value)
  {
    if s.alive { ThreadMoved(s, DoSignal(s, t).value, t); }
  }

  /** States that differ only in ways that keep the responsible party. */
  lemma ResponsibleKept(s: System, s': System)
    requires NothingLost(s)
    requires s'.publishers == s.publishers
    requires forall fd :: IsStreaming(s', fd) && Waits(s', s'.connections[fd].source) ==>
      || s'.reactor == Driving(fd)
      || s'.connections[fd].writePending
      || (&& IsStreaming(s, fd) && Waits(s, s.connections[fd].source)
          && s'.connections[fd].id == s.connections[fd].id
          && !s.connections[fd].writePending && s.reactor != Driving(fd)
          && (s.connections[fd].id in s.pending || s.connections[fd].id in s.todo ==>
                s.connections[fd].id in s'.pending || s.connections[fd].id in s'.todo))
    ensures NothingLost(s')
  {
    forall fd | IsStreaming(s', fd) && Waits(s', s'.connections[fd].source)
      ensures Responsible(s', fd)
    {
      if s'.reactor != Driving(fd) && !s'.connections[fd].writePending {
        assert Responsible(s, fd);
        var id := s.connections[fd].id;
        if InFlight(s, id) {
          var u :| u in s.publishers && (s.publishers[u] == Notifying(id) || s.publishers[u] == Listing(id));
          assert s'.publishers[u] == s.publishers[u];
          assert InFlight(s', id);
        }
      }
    }
  }

  lemma SignallingKept(s: System, s': System)
    requires s'.publishers == s.publishers
    ensures SomeSignalling(s) <==> SomeSignalling(s')
  {
    if SomeSignalling(s) {
      var u :| u in s.publishers && s.publishers[u] == Signalling;
      assert s'.publishers[u] == Signalling;
    }
    if SomeSignalling(s') {
      var u :| u in s'.publishers && s'.publishers[u] == Signalling;
      assert s.publishers[u] == Signalling;
    }
  }

  /** The loop moved on without touching connections, sources or the ids underway. */
  lemma LoopMoved(s: System, s': System)
    requires Inv(s)
    requires s' == s.(reactor := s'.reactor, seen := s'.seen, counter := s'.counter, alive := s'.alive)
    requires !s.reactor.Driving? && !s'.reactor.Driving? && Turns(s')
    requires s'.seen ==> s'.counter > 0
    requires s.pending != [] && (s.counter > 0 || s.reactor.Drained?) ==> s'.counter > 0 || s'.reactor.Drained?
    requires s'.alive ==> s.alive
    ensures Inv(s')
  {
    SignallingKept(s, s');
    if s'.alive { ResponsibleKept(s, s'); }
  }

  lemma TakePendingKeeps(s: System)
    requires Inv(s) && DoTakePending(s).Some?
    ensures Inv(DoTakePending(s).value)
  {
    ResponsibleKept(s, DoTakePending(s).value);
  }

  lemma NotifiedTables(s: System)
    requires Inv(s) && DoNotified(s).Some?
    ensures var s' := DoNotified(s).value; Turns(s') && Tables(s') && Sources(s')
  {}

  lemma NotifiedAnnounced(s: System)
    requires Inv(s) && DoNotified(s).Some?
    ensures PendingIsAnnounced(DoNotified(s).value)
  {
    SignallingKept(s, DoNotified(s).value);
  }

  lemma NotifiedLosesNothing(s: System)
    requires Inv(s) && DoNotified(s).Some?
    ensures var s' := DoNotified(s).value; s'.alive ==> NothingLost(s')
  {
    var s' := DoNotified(s).value;
    SignallingKept(s, s');
    var id := s.todo[0];
    assert s.todo == [id] + s'.todo;
    ResponsibleKept(s, s');
  }

  lemma NotifiedKeeps(s: System)
    requires Inv(s) && DoNotified(s).Some?
    ensures Inv(DoNotified(s).value)
  {
    NotifiedTables(s);
    NotifiedAnnounced(s);
    NotifiedLosesNothing(s);
  }

  lemma ReadyKeeps(s: System, fd: Fd)
    requires Inv(s) && DoReady(s, fd).Some?
    ensures Inv(DoReady(s, fd).value)
  {
    SignallingKept(s, DoReady(s, fd).value);
    ResponsibleKept(s, DoReady(s, fd).value);
  }

  lemma WriteBlockedKeeps(s: System)
    requires Inv(s) && DoWriteBlocked(s).Some?
    ensures Inv(DoWriteBlocked(s).value)
  {
    SignallingKept(s, DoWriteBlocked(s).value);
    ResponsibleKept(s, DoWriteBlocked(s).value);
  }

  lemma WriteDoneKeeps(s: System)
    requires Inv(s) && DoWriteDone(s).Some?
    ensures Inv(DoWriteDone(s).value)
  {
    SignallingKept(s, DoWriteDone(s).value);
    ResponsibleKept(s, DoWriteDone(s).value);
  }

  lemma SubscribeKeeps(s: System, source: Source, sub: SseQueue.Subscriber)
    requires Inv(s) && source !in s.subscribers && FramesNonEmpty(sub.queue)
    ensures Inv(s.(subscribers := s.subscribers[source := sub]))
  {
    var s' := s.(subscribers := s.subscribers[source := sub]);
    SignallingKept(s, s');
    if s.alive {
      ResponsibleKept(s, s');
    }
  }

  lemma AcceptKeeps(s: System, fd: Fd)
    requires Inv(s) && DoAccept(s, fd).Some?
    ensures Inv(DoAccept(s, fd).value)
  {
    SignallingKept(s, DoAccept(s, fd).value);
    ResponsibleKept(s, DoAccept(s, fd).value);
  }

  lemma TakeKeeps(s: System, fd: Fd, source: Source)
    requires Inv(s) && DoTake(s, fd, source).Some?
    ensures Inv(DoTake(s, fd, source).value)
  {
    SignallingKept(s, DoTake(s, fd, source).value);
    ResponsibleKept(s, DoTake(s, fd, source).value);
  }

  lemma AttachKeeps(s: System, fd: Fd)
    requires Inv(s) && DoAttach(s, fd).Some?
    ensures Inv(DoAttach(s, fd).value)
  {
    var s' := DoAttach(s, fd).value;
    SignallingKept(s, s');
    ResponsibleKept(s, s');
  }

  lemma ClosedTables(s: System, fd: Fd)
    requires Tables(s) && fd in s.connections
    ensures Tables(Closed(s, fd).(reactor := Turn))
  {
    var s' := Closed(s, fd).(reactor := Turn);
    forall other | IsStreaming(s', other)
      ensures s'.connections[other].id in s'.streaming && s'.streaming[s'.connections[other].id] == other
    {
      assert IsStreaming(s, other);
    }
  }

  lemma ClosedSources(s: System, fd: Fd)
    requires Sources(s) && fd in s.connections
    ensures Sources(Closed(s, fd).(reactor := Turn))
  {
    var s' := Closed(s, fd).(reactor := Turn);
    forall other | IsStreaming(s', other)
      ensures IsStreaming(s, other)
      ensures s'.subscribers[s'.connections[other].source] == s.subscribers[s.connections[other].source]
    {
      assert SourceOf(s.connections[other]) == Some(s.connections[other].source);
      assert SourceOf(s.connections[other]) != SourceOf(s.connections[fd]);
    }
  }

  lemma ClosedKeeps(s: System, fd: Fd)
    requires Inv(s) && fd in s.connections && (s.reactor.Turn? || s.reactor == Driving(fd))
    ensures Inv(Closed(s, fd).(reactor := Turn))
  {
    var s' := Closed(s, fd).(reactor := Turn);
    SignallingKept(s, s');
    ClosedTables(s, fd);
    ClosedSources(s, fd);
    forall other | IsStreaming(s', other) && Waits(s', s'.connections[other].source)
      ensures IsStreaming(s, other) && Waits(s, s.connections[other].source)
    {
      assert SourceOf(s.connections[other]) == Some(s.connections[other].source);
      assert SourceOf(s.connections[other]) != SourceOf(s.connections[fd]);
    }
    ResponsibleKept(s, s');
  }

  /** Pulling replaces only this source; an idle answer means there was nothing to pull. */
  lemma PulledKeeps(s: System, sub: SseQueue.Subscriber, fd: Fd)
    requires Inv(s) && s.reactor == Driving(fd) && IsStreaming(s, fd)
    requires s.connections[fd].source in s.subscribers
    requires sub.notifier == s.subscribers[s.connections[fd].source].notifier
    requires sub.detached == s.subscribers[s.connections[fd].source].detached
    requires FramesNonEmpty(sub.queue)
    ensures Inv(s.(subscribers := s.subscribers[s.connections[fd].source := sub]))
  {
    var s' := s.(subscribers := s.subscribers[s.connections[fd].source := sub]);
    SignallingKept(s, s');
    ResponsibleKept(s, s');
  }

  lemma DriveEnds(s: System, fd: Fd)
    requires Inv(s) && s.reactor == Driving(fd) && IsStreaming(s, fd)
    requires !Waits(s, s.connections[fd].source)
    ensures Inv(s.(reactor := Turn))
  {
    SignallingKept(s, s.(reactor := Turn));
    ResponsibleKept(s, s.(reactor := Turn));
  }

  lemma WriteBegins(s: System, fd: Fd)
    requires Inv(s) && s.reactor == Driving(fd) && IsStreaming(s, fd)
    ensures Inv(s.(connections := s.connections[fd := s.connections[fd].(writePending := true)]))
  {
    var s' := s.(connections := s.connections[fd := s.connections[fd].(writePending := true)]);
    SignallingKept(s, s');
    ResponsibleKept(s, s');
  }

  lemma PulledText(q: seq<string>)
    requires q != [] && FramesNonEmpty(q)
    ensures Concat(q) != ""
  {}

  lemma PullKeeps(s: System, now: int)
    requires Inv(s) && DoPull(s, now).Some?
    ensures Inv(DoPull(s, now).value)
  {
    var fd := s.reactor.fd;
    var source := s.connections[fd].source;
    var (sub, outcome) := SseQueue.Pull(s.subscribers[source], now);
    PulledKeeps(s, sub, fd);
    var next := s.(subscribers := s.subscribers[source := sub]);
    match outcome
    case Wrote(text) =>
      PulledText(s.subscribers[source].queue);
      WriteBegins(next, fd);
    case Idle => DriveEnds(next, fd);
    case Finished => ClosedKeeps(next, fd);
  }

  lemma StepKeeps(s: System, a: Action)
    requires Inv(s) && Step(s, a).Some?
    ensures Inv(Step(s, a).value)
  {
    match a
    case Subscribe(source, budget, interval, retry, now) =>
      SubscribeKeeps(s, source, SseQueue.New(budget, interval, retry, now));
    case Publish(t, source, frame) => PublisherSteps(s, t, source, frame, 0);
    case Finish(t, source) => PublisherSteps(s, t, source, "", 0);
    case Beat(t, source, now) => PublisherSteps(s, t, source, "", now);
    case CheckAlive(t) => CheckAliveKeeps(s, t);
    case ListStream(t) => ListStreamKeeps(s, t);
    case Signal(t) => SignalKeeps(s, t);
    case Wake(withEvent) => LoopMoved(s, DoWake(s, withEvent).value);
    case Accept(fd) => AcceptKeeps(s, fd);
    case Take(fd, source) => TakeKeeps(s, fd, source);
    case Attach(fd) => AttachKeeps(s, fd);
    case Ready(fd) => ReadyKeeps(s, fd);
    case DrainEvent => LoopMoved(s, DoDrainEvent(s).value);
    case TakePending => TakePendingKeeps(s);
    case Notified => NotifiedKeeps(s);
    case WriteBlocked => WriteBlockedKeeps(s);
    case WriteDone => WriteDoneKeeps(s);
    case PullStream(now) => PullKeeps(s, now);
    case Close(fd) => ClosedKeeps(s, fd);
    case EndTurn => LoopMoved(s, DoEndTurn(s).value);
    case Stop => LoopMoved(s, DoStop(s).value);
  }

  lemma {:induction false} RunKeeps(s: System, schedule: seq<Action>)
    requires Inv(s)
    ensures Inv(Run(s, schedule))
  {
    if schedule != [] {
      RunKeeps(s, schedule[..|schedule| - 1]);
      var before, a := Run(s, schedule[..|schedule| - 1]), schedule[|schedule| - 1];
      if Step(before, a).Some? {
        StepKeeps(before, a);
      }
    }
  }

  // ------------------------------------------------------------ what it promises

  /** No lost wake-up. After every schedule of every number of publishers: if the reactor is blocked with the eventfd
      not raised and no publisher is mid-way, then each streaming connection that is not itself waiting to write has an
      open subscriber with an empty queue; and no id was left in the pending list. */
  lemma NoLostWakeup(threads: set<Thread>, schedule: seq<Action>)
    ensures var s := Run(Start(threads), schedule);
            Distinct(s.pending)
    ensures var s := Run(Start(threads), schedule);
            s.reactor.Waiting? && s.counter == 0 && (forall t :: t in s.publishers ==> s.publishers[t].Resting?) ==>
              && s.pending == []
              && forall fd :: IsStreaming(s, fd) && !s.connections[fd].writePending ==>
                   && s.connections[fd].source in s.subscribers
                   && s.subscribers[s.connections[fd].source].queue == []
                   && !s.subscribers[s.connections[fd].source].closed
  {
    RunKeeps(Start(threads), schedule);
    var s := Run(Start(threads), schedule);
    if s.reactor.Waiting? && s.counter == 0 && (forall t :: t in s.publishers ==> s.publishers[t].Resting?) {
      forall fd | IsStreaming(s, fd) && !s.connections[fd].writePending
        ensures s.connections[fd].source in s.subscribers && !Waits(s, s.connections[fd].source)
      {
        assert SourceOf(s.connections[fd]) == Some(s.connections[fd].source);
        assert Waits(s, s.connections[fd].source) ==> Responsible(s, fd);
      }
    }
  }

  /** A notification drives the connection that made its id, and nothing else. */
  lemma NotificationReachesItsMaker(threads: set<Thread>, schedule: seq<Action>)
    ensures var s := Run(Start(threads), schedule);
            var after := DoNotified(s);
            after.Some? && after.value.reactor.Driving? ==>
              IsStreaming(s, after.value.reactor.fd) && s.connections[after.value.reactor.fd].id == s.todo[0]
    ensures var s := Run(Start(threads), schedule);
            forall fd, fd' :: IsStreaming(s, fd) && IsStreaming(s, fd') && s.connections[fd].id == s.connections[fd'].id ==> fd == fd'
  {
    RunKeeps(Start(threads), schedule);
  }

  /** Only `Attach` adds an id, and the one it adds was never used. */
  lemma StepIds(s: System, a: Action)
    requires Step(s, a).Some?
    ensures var s' := Step(s, a).value;
            s.nextId <= s'.nextId && forall id :: id in s'.streaming && id < s.nextId ==> id in s.streaming
  {
    match a
    case PullStream(now) =>
    case _ =>
  }

  /** An id whose stream is over is dead for ever, even when its descriptor serves a new stream. */
  lemma {:induction false} StaleIdStaysStale(s: System, id: StreamId, schedule: seq<Action>)
    requires id < s.nextId && id !in s.streaming
    ensures id < Run(s, schedule).nextId && id !in Run(s, schedule).streaming
  {
    if schedule != [] {
      StaleIdStaysStale(s, id, schedule[..|schedule| - 1]);
      var before, a := Run(s, schedule[..|schedule| - 1]), schedule[|schedule| - 1];
      if Step(before, a).Some? { StepIds(before, a); }
    }
  }

  /** Closing a connection makes its id stale, and no other. */
  lemma CloseEndsTheId(s: System, fd: Fd)
    requires Inv(s) && IsStreaming(s, fd)
    ensures s.connections[fd].id < s.nextId && s.connections[fd].id !in Closed(s, fd).streaming
    ensures forall other :: other in s.streaming && s.streaming[other] != fd ==>
              other in Closed(s, fd).streaming && Closed(s, fd).streaming[other] == s.streaming[other]
  {
    assert s.connections[fd].id in s.streaming;
  }

  /** A notification that is still under way when its connection closes drives nothing, whatever happens meanwhile: its id
      is skipped when its turn comes, also when the descriptor streams again. */
  lemma LateNotificationIsDropped(threads: set<Thread>, before: seq<Action>, fd: Fd, later: seq<Action>)
    requires var s := Run(Start(threads), before); IsStreaming(s, fd) && DoClose(s, fd).Some?
    ensures var s := Run(Start(threads), before);
            var (id, after) := (s.connections[fd].id, Run(DoClose(s, fd).value, later));
            && id !in after.streaming
            && (after.reactor.Turn? && after.todo != [] && after.todo[0] == id ==>
                  DoNotified(after) == Some(after.(todo := after.todo[1..])))
  {
    RunKeeps(Start(threads), before);
    var s := Run(Start(threads), before);
    CloseEndsTheId(s, fd);
    StaleIdStaysStale(DoClose(s, fd).value, s.connections[fd].id, later);
  }
}
