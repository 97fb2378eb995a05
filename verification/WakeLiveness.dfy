/**
 What the wake-up protocol brings about (src/reactor.cpp, `drain_stream_wakeups`;
 src/sse.cpp, `enqueue`): in every fair execution, however the publishers and the
 reactor interleave, a stream with something to deliver is pulled or closed.
 */
module WakeLiveness {
  import opened Text
  import opened WakeProtocol
  import SseQueue

  /** An endless schedule; an action that is not enabled when its turn comes does nothing. */
  datatype Execution = Execution(threads: set<Thread>, choose: nat -> Action) {
    function Prefix(n: nat): seq<Action> { seq(n, i requires 0 <= i < n => choose(i)) }

    function At(n: nat): System { Run(Start(threads), Prefix(n)) }

    ghost predicate Acts(n: nat) { Step(At(n), choose(n)) == Some(At(n + 1)) }
  }

  // -------------------------------------------------------------------- fairness

  /** From here on, again and again. */
  ghost predicate Comes(e: Execution, p: System -> bool, n: nat) { exists m: nat :: m >= n && p(e.At(m)) }

  ghost predicate Recurs(e: Execution, p: System -> bool) { forall n: nat :: Comes(e, p, n) }

  /** The reactor keeps running, and each of its turns ends: no batch and no drive of a stream goes on for ever. */
  ghost predicate TurnsEnd(e: Execution) {
    (forall n: nat :: e.At(n).alive) && Recurs(e, (s: System) => s.reactor.Waiting?)
  }

  /** A raised eventfd is not left out of the batches for ever. */
  ghost predicate EventsAreSeen(e: Execution) { Recurs(e, (s: System) => s.counter == 0 || s.seen) }

  predicate Rests(s: System, t: Thread) { t in s.publishers && s.publishers[t].Resting? }

  /** Every publisher comes to the end of what it is doing. */
  ghost predicate PublishersRest(e: Execution) {
    forall t :: t in e.threads ==> Recurs(e, (s: System) => Rests(s, t))
  }

  ghost predicate Fair(e: Execution) { TurnsEnd(e) && EventsAreSeen(e) && PublishersRest(e) }

  // ------------------------------------------------------------------ executions

  lemma RunOn(s: System, schedule: seq<Action>, a: Action)
    ensures var before := Run(s, schedule);
            Run(s, schedule + [a]) == if Step(before, a).Some? then Step(before, a).value else before
  {
    assert (schedule + [a])[..|schedule|] == schedule;
  }

  lemma StepOn(e: Execution, n: nat)
    ensures e.Acts(n) || e.At(n + 1) == e.At(n)
    ensures Inv(e.At(n))
  {
    assert e.Prefix(n + 1) == e.Prefix(n) + [e.choose(n)];
    RunOn(Start(e.threads), e.Prefix(n), e.choose(n));
    RunKeeps(Start(e.threads), e.Prefix(n));
  }

  /** This step does not lose a property. */
  ghost predicate Keeps(e: Execution, p: System -> bool, k: nat) { p(e.At(k)) ==> p(e.At(k + 1)) }

  lemma {:induction false} Holds(e: Execution, p: System -> bool, n: nat, m: nat)
    requires n <= m && p(e.At(n)) && forall k: nat :: n <= k < m ==> Keeps(e, p, k)
    ensures p(e.At(m))
    decreases m
  {
    if n < m {
      Holds(e, p, n, m - 1);
      assert Keeps(e, p, m - 1);
    }
  }

  // ------------------------------------------------------------ fairness can be had

  /** Nothing is under way. */
  ghost predicate AtRest(s: System) {
    s.alive && s.reactor.Waiting? && s.counter == 0 && forall t :: t in s.publishers ==> s.publishers[t].Resting?
  }

  /** A finite schedule, and then nothing more: a blocked reactor cannot end a turn. */
  function ThenNothing(threads: set<Thread>, schedule: seq<Action>): Execution {
    Execution(threads, (n: nat) => if n < |schedule| then schedule[n] else EndTurn)
  }

  lemma NothingNext(e: Execution, n: nat)
    requires e.choose(n) == EndTurn && e.At(n).reactor.Waiting?
    ensures e.At(n + 1) == e.At(n)
  {
    StepOn(e, n);
  }

  lemma NothingMore(threads: set<Thread>, schedule: seq<Action>, n: nat)
    requires Run(Start(threads), schedule).reactor.Waiting? && |schedule| <= n
    ensures ThenNothing(threads, schedule).At(n) == Run(Start(threads), schedule)
  {
    var (e, last) := (ThenNothing(threads, schedule), Run(Start(threads), schedule));
    assert e.Prefix(|schedule|) == schedule;
    var p := (s: System) => s == last;
    forall k: nat | |schedule| <= k < n ensures Keeps(e, p, k) {
      if p(e.At(k)) { NothingNext(e, k); }
    }
    Holds(e, p, |schedule|, n);
  }

  lemma AliveNext(e: Execution, n: nat)
    requires e.At(n + 1).alive
    ensures e.At(n).alive
  {
    StepOn(e, n);
    if e.Acts(n) { StepAlive(e.At(n), e.choose(n)); }
  }

  lemma AliveBefore(e: Execution, n: nat, m: nat)
    requires n <= m && e.At(m).alive
    ensures e.At(n).alive
  {
    if !e.At(n).alive {
      var p := (s: System) => !s.alive;
      forall k: nat | n <= k < m ensures Keeps(e, p, k) {
        if e.At(k + 1).alive { AliveNext(e, k); }
      }
      Holds(e, p, n, m);
      assert false;
    }
  }

  lemma StepAlive(s: System, a: Action)
    requires Step(s, a).Some? && Step(s, a).value.alive
    ensures s.alive
  {
    match a
    case PullStream(now) =>
    case _ =>
  }

  lemma {:induction false} LongRest(e: Execution, p: System -> bool, n: nat)
    requires forall m: nat :: m >= n ==> p(e.At(m))
    ensures Recurs(e, p)
  {
    forall k: nat ensures Comes(e, p, k) {
      assert p(e.At(if k < n then n else k));
    }
  }

  /** Every run of the protocol that ends at rest is the beginning of a fair execution. */
  lemma RestIsFair(threads: set<Thread>, schedule: seq<Action>)
    requires AtRest(Run(Start(threads), schedule))
    ensures Fair(ThenNothing(threads, schedule))
  {
    var (e, last, n) := (ThenNothing(threads, schedule), Run(Start(threads), schedule), |schedule|);
    forall m: nat | m >= n ensures e.At(m) == last { NothingMore(threads, schedule, m); }
    forall m: nat ensures e.At(m).alive { AliveBefore(e, m, if m < n then n else m); }
    LongRest(e, (s: System) => s.reactor.Waiting?, n);
    LongRest(e, (s: System) => s.counter == 0 || s.seen, n);
    SameThreads(e, n);
    forall t | t in threads ensures Recurs(e, (s: System) => Rests(s, t)) {
      LongRest(e, (s: System) => Rests(s, t), n);
    }
  }

  // ------------------------------------------------------------- what a step keeps

  /** The connection streams from this source under this id and is not waiting to write. */
  ghost predicate Idles(s: System, fd: Fd, source: Source, id: StreamId) {
    fd in s.connections && s.connections[fd] == Streaming(source, id, false)
  }

  lemma PublishersApart(s: System, a: Action)
    requires Step(s, a).Some? && ByPublisher(a)
    ensures var s' := Step(s, a).value; s'.connections == s.connections && s'.reactor == s.reactor && s'.todo == s.todo
  {}

  lemma ThreadsApart(s: System, a: Action)
    requires Step(s, a).Some? && !ByPublisher(a)
    ensures Step(s, a).value.publishers == s.publishers
  {
    match a
    case PullStream(now) =>
    case _ =>
  }

  lemma OthersIdle(s: System, fd: Fd, source: Source, id: StreamId, now: int)
    requires Tables(s) && Idles(s, fd, source, id) && DoPull(s, now).Some? && s.reactor != Driving(fd)
    ensures Idles(DoPull(s, now).value, fd, source, id)
  {}

  lemma ReactorApart(s: System, a: Action, fd: Fd, source: Source, id: StreamId)
    requires Tables(s) && Idles(s, fd, source, id) && Step(s, a).Some? && id in Step(s, a).value.streaming
    requires !ByPublisher(a) && !a.PullStream?
    ensures Idles(Step(s, a).value, fd, source, id)
    ensures s.reactor == Driving(fd) ==> Step(s, a).value.reactor == Driving(fd)
  {
    assert IsStreaming(s, fd);
  }

  lemma IdlesOn(s: System, a: Action, fd: Fd, source: Source, id: StreamId)
    requires Inv(s) && Idles(s, fd, source, id) && Step(s, a).Some? && id in Step(s, a).value.streaming
    requires !(a.PullStream? && s.reactor == Driving(fd))
    ensures Idles(Step(s, a).value, fd, source, id)
    ensures s.reactor == Driving(fd) ==> Step(s, a).value.reactor == Driving(fd)
  {
    if a.PullStream? {
      OthersIdle(s, fd, source, id, a.now);
    } else if ByPublisher(a) {
      PublishersApart(s, a);
    } else {
      ReactorApart(s, a, fd, source, id);
    }
  }

  lemma TodoStays(s: System, a: Action, fd: Fd, source: Source, id: StreamId)
    requires Inv(s) && Idles(s, fd, source, id) && id in s.todo && Step(s, a).Some?
    ensures id in Step(s, a).value.todo || Step(s, a).value.reactor == Driving(fd)
  {
    assert IsStreaming(s, fd);
    if ByPublisher(a) {
      PublishersApart(s, a);
    } else if a.Notified? {
      assert s.todo == [s.todo[0]] + s.todo[1..];
    } else {
      assert Step(s, a).value.todo == s.todo;
    }
  }

  lemma PendingStays(s: System, a: Action, id: StreamId)
    requires Inv(s) && id in s.pending && Step(s, a).Some?
    ensures id in Step(s, a).value.pending || id in Step(s, a).value.todo
    ensures s.reactor.Drained? && id in Step(s, a).value.pending ==> Step(s, a).value.reactor.Drained?
    ensures s.counter > 0 ==> Step(s, a).value.counter > 0 || Step(s, a).value.reactor.Drained?
    ensures s.seen ==> Step(s, a).value.seen || Step(s, a).value.reactor.Drained?
  {
    match a
    case PullStream(now) =>
    case _ =>
  }

  lemma ThreadStays(s: System, a: Action, t: Thread)
    requires Inv(s) && s.alive && Step(s, a).Some? && t in s.publishers
    ensures var s' := Step(s, a).value;
            && t in s'.publishers
            && match s.publishers[t]
               case Resting => true
               case Notifying(id) => s'.publishers[t] == Notifying(id) || s'.publishers[t] == Listing(id)
               case Listing(id) => s'.publishers[t] == Listing(id) || id in s'.pending
               case Signalling => s'.publishers[t] == Signalling || s'.counter > 0
  {
    if !ByPublisher(a) { ThreadsApart(s, a); }
  }

  // --------------------------------------------------------- no stream is left alone

  /** The reactor pulls from this connection's source now. */
  ghost predicate Pulls(e: Execution, n: nat, fd: Fd) {
    e.At(n).reactor == Driving(fd) && e.choose(n).PullStream? && e.Acts(n)
  }

  /** The stream is over, or the reactor pulls from it now. */
  ghost predicate Served(e: Execution, n: nat, fd: Fd, id: StreamId) {
    id !in e.At(n).streaming || Pulls(e, n, fd)
  }

  /** From here on the connection stays as it is, and is never driven. */
  ghost predicate LeftAlone(e: Execution, n: nat, fd: Fd, source: Source, id: StreamId) {
    forall m: nat :: m >= n ==> Idles(e.At(m), fd, source, id) && e.At(m).reactor != Driving(fd)
  }

  lemma StaysWaiting(e: Execution, n: nat) returns (m: nat)
    requires Fair(e)
    ensures m >= n && e.At(m).reactor.Waiting? && e.At(m).todo == [] && !e.At(m).seen
  {
    assert Comes(e, (s: System) => s.reactor.Waiting?, n);
    m :| m >= n && e.At(m).reactor.Waiting?;
    StepOn(e, m);
  }

  lemma NeverServed(e: Execution, n: nat, fd: Fd, source: Source, id: StreamId)
    requires Fair(e) && Idles(e.At(n), fd, source, id)
    requires forall m: nat :: m >= n ==> !Served(e, m, fd, id)
    ensures LeftAlone(e, n, fd, source, id)
  {
    forall m: nat | m >= n ensures Idles(e.At(m), fd, source, id) {
      var p := (s: System) => Idles(s, fd, source, id);
      forall k: nat | n <= k < m ensures Keeps(e, p, k) {
        if p(e.At(k)) {
          assert !Served(e, k, fd, id) && !Served(e, k + 1, fd, id);
          IdlesNext(e, k, fd, source, id);
        }
      }
      Holds(e, p, n, m);
    }
    forall m: nat | m >= n ensures e.At(m).reactor != Driving(fd) {
      var w := StaysWaiting(e, m);
      if e.At(m).reactor == Driving(fd) {
        var p := (s: System) => s.reactor == Driving(fd);
        forall k: nat | m <= k < w ensures Keeps(e, p, k) {
          if p(e.At(k)) {
            assert !Served(e, k, fd, id) && !Served(e, k + 1, fd, id);
            IdlesNext(e, k, fd, source, id);
          }
        }
        Holds(e, p, m, w);
        assert false;
      }
    }
  }

  lemma IdlesNext(e: Execution, k: nat, fd: Fd, source: Source, id: StreamId)
    requires Idles(e.At(k), fd, source, id) && !Served(e, k, fd, id) && id in e.At(k + 1).streaming
    ensures Idles(e.At(k + 1), fd, source, id)
    ensures e.At(k).reactor == Driving(fd) ==> e.At(k + 1).reactor == Driving(fd)
  {
    StepOn(e, k);
    if e.Acts(k) { IdlesOn(e.At(k), e.choose(k), fd, source, id); }
  }

  lemma NotInTodo(e: Execution, n: nat, fd: Fd, source: Source, id: StreamId)
    requires Fair(e) && LeftAlone(e, n, fd, source, id)
    ensures id !in e.At(n).todo
  {
    var w := StaysWaiting(e, n);
    if id in e.At(n).todo {
      var p := (s: System) => id in s.todo;
      forall k: nat | n <= k < w ensures Keeps(e, p, k) {
        if p(e.At(k)) {
          StepOn(e, k);
          if e.Acts(k) { TodoStays(e.At(k), e.choose(k), fd, source, id); }
        }
      }
      Holds(e, p, n, w);
      assert false;
    }
  }

  /** From here on the id is pending. */
  ghost predicate Stuck(e: Execution, n: nat, id: StreamId) {
    forall m: nat :: m >= n ==> id in e.At(m).pending
  }

  lemma StuckNext(e: Execution, n: nat, k: nat, id: StreamId)
    requires Stuck(e, n, id) && n <= k
    ensures e.At(k).reactor.Drained? ==> e.At(k + 1).reactor.Drained?
    ensures !e.At(k + 1).reactor.Drained? && e.At(k).counter > 0 ==> e.At(k + 1).counter > 0
    ensures !e.At(k + 1).reactor.Drained? && e.At(k).seen ==> e.At(k + 1).seen
  {
    StepOn(e, k);
    assert id in e.At(k).pending && id in e.At(k + 1).pending;
    if e.Acts(k) { PendingStays(e.At(k), e.choose(k), id); }
  }

  lemma StuckUndrained(e: Execution, n: nat, m: nat, id: StreamId)
    requires Fair(e) && Stuck(e, n, id) && n <= m
    ensures !e.At(m).reactor.Drained?
  {
    var w := StaysWaiting(e, m);
    if e.At(m).reactor.Drained? {
      var p := (s: System) => s.reactor.Drained?;
      forall k: nat | m <= k < w ensures Keeps(e, p, k) {
        if p(e.At(k)) { StuckNext(e, n, k, id); }
      }
      Holds(e, p, m, w);
      assert false;
    }
  }

  lemma StuckUnseen(e: Execution, n: nat, m: nat, id: StreamId)
    requires Fair(e) && Stuck(e, n, id) && n <= m
    ensures !e.At(m).seen
  {
    var w := StaysWaiting(e, m);
    if e.At(m).seen {
      var p := (s: System) => s.seen;
      forall k: nat | m <= k < w ensures Keeps(e, p, k) {
        if p(e.At(k)) {
          StuckUndrained(e, n, k + 1, id);
          StuckNext(e, n, k, id);
        }
      }
      Holds(e, p, m, w);
      assert false;
    }
  }

  lemma StuckUnraised(e: Execution, n: nat, m: nat, id: StreamId)
    requires Fair(e) && Stuck(e, n, id) && n <= m
    ensures e.At(m).counter == 0
  {
    if e.At(m).counter > 0 {
      assert Comes(e, (s: System) => s.counter == 0 || s.seen, m);
      var w: nat :| w >= m && (e.At(w).counter == 0 || e.At(w).seen);
      StuckUnseen(e, n, w, id);
      StuckRaised(e, n, m, w, id);
      assert false;
    }
  }

  lemma StuckRaised(e: Execution, n: nat, m: nat, w: nat, id: StreamId)
    requires Fair(e) && Stuck(e, n, id) && n <= m <= w && e.At(m).counter > 0
    ensures e.At(w).counter > 0
  {
    var p := (s: System) => s.counter > 0;
    forall k: nat | m <= k < w ensures Keeps(e, p, k) {
      if p(e.At(k)) {
        StuckUndrained(e, n, k + 1, id);
        StuckNext(e, n, k, id);
      }
    }
    Holds(e, p, m, w);
  }

  lemma Resting(e: Execution, n: nat, t: Thread) returns (m: nat)
    requires Fair(e) && t in e.At(n).publishers
    ensures m >= n && Rests(e.At(m), t)
  {
    SameThreads(e, n);
    assert Comes(e, (s: System) => Rests(s, t), n);
    m :| m >= n && Rests(e.At(m), t);
  }

  lemma {:induction false} SameThreads(e: Execution, n: nat)
    ensures e.At(n).publishers.Keys == e.threads
  {
    if n > 0 {
      SameThreads(e, n - 1);
      StepOn(e, n - 1);
      if e.Acts(n - 1) { SameKeys(e.At(n - 1), e.choose(n - 1)); }
    }
  }

  lemma SameKeys(s: System, a: Action)
    requires Step(s, a).Some?
    ensures Step(s, a).value.publishers.Keys == s.publishers.Keys
  {
    if !ByPublisher(a) { ThreadsApart(s, a); }
  }

  lemma NotStuck(e: Execution, n: nat, id: StreamId)
    requires Fair(e)
    ensures !Stuck(e, n, id)
  {
    if Stuck(e, n, id) {
      var t := StuckSignals(e, n, id);
      var w := Resting(e, n, t);
      var p := (s: System) => Signals(s, t);
      forall k: nat | n <= k < w ensures Keeps(e, p, k) {
        if p(e.At(k)) { SignalsNext(e, n, k, t, id); }
      }
      Holds(e, p, n, w);
      assert false;
    }
  }

  lemma StuckSignals(e: Execution, n: nat, id: StreamId) returns (t: Thread)
    requires Fair(e) && Stuck(e, n, id)
    ensures Signals(e.At(n), t)
  {
    StepOn(e, n);
    StuckUndrained(e, n, n, id);
    StuckUnraised(e, n, n, id);
    assert id in e.At(n).pending;
    t :| t in e.At(n).publishers && e.At(n).publishers[t] == Signalling;
  }

  lemma SignalsNext(e: Execution, n: nat, k: nat, t: Thread, id: StreamId)
    requires Fair(e) && Stuck(e, n, id) && n <= k && Signals(e.At(k), t)
    ensures Signals(e.At(k + 1), t)
  {
    StuckUnraised(e, n, k + 1, id);
    ThreadNext(e, k, t);
  }

  /** Where a thread stands one step later. */
  lemma ThreadNext(e: Execution, k: nat, t: Thread)
    requires Fair(e) && t in e.At(k).publishers
    ensures Signals(e.At(k), t) ==> Signals(e.At(k + 1), t) || e.At(k + 1).counter > 0
    ensures forall id :: Carries(e.At(k), t, id) ==> Carries(e.At(k + 1), t, id) || id in e.At(k + 1).pending
  {
    StepOn(e, k);
    assert e.At(k).alive;
    if e.Acts(k) { ThreadStays(e.At(k), e.choose(k), t); }
  }

  predicate Signals(s: System, t: Thread) { t in s.publishers && s.publishers[t] == Signalling }

  lemma PendingNext(e: Execution, n: nat, k: nat, fd: Fd, source: Source, id: StreamId)
    requires Fair(e) && LeftAlone(e, n, fd, source, id) && n <= k && id in e.At(k).pending
    ensures id in e.At(k + 1).pending
  {
    LeftLater(e, n, k + 1, fd, source, id);
    NotInTodo(e, k + 1, fd, source, id);
    StepOn(e, k);
    if e.Acts(k) { PendingStays(e.At(k), e.choose(k), id); }
  }

  lemma PendingSticks(e: Execution, n: nat, fd: Fd, source: Source, id: StreamId)
    requires Fair(e) && LeftAlone(e, n, fd, source, id) && id in e.At(n).pending
    ensures Stuck(e, n, id)
  {
    var p := (s: System) => id in s.pending;
    forall m: nat | m >= n ensures id in e.At(m).pending {
      forall k: nat | n <= k < m ensures Keeps(e, p, k) {
        if p(e.At(k)) { PendingNext(e, n, k, fd, source, id); }
      }
      Holds(e, p, n, m);
    }
  }

  lemma NotPending(e: Execution, n: nat, fd: Fd, source: Source, id: StreamId)
    requires Fair(e) && LeftAlone(e, n, fd, source, id)
    ensures id !in e.At(n).pending
  {
    if id in e.At(n).pending {
      PendingSticks(e, n, fd, source, id);
      NotStuck(e, n, id);
      assert false;
    }
  }

  predicate Carries(s: System, t: Thread, id: StreamId) {
    t in s.publishers && (s.publishers[t] == Notifying(id) || s.publishers[t] == Listing(id))
  }

  lemma LeftLater(e: Execution, n: nat, m: nat, fd: Fd, source: Source, id: StreamId)
    requires LeftAlone(e, n, fd, source, id) && n <= m
    ensures LeftAlone(e, m, fd, source, id)
  {}

  lemma CarriesNext(e: Execution, n: nat, k: nat, fd: Fd, source: Source, t: Thread, id: StreamId)
    requires Fair(e) && LeftAlone(e, n, fd, source, id) && n <= k && Carries(e.At(k), t, id)
    ensures Carries(e.At(k + 1), t, id)
  {
    LeftLater(e, n, k + 1, fd, source, id);
    NotPending(e, k + 1, fd, source, id);
    ThreadNext(e, k, t);
  }

  lemma NotCarried(e: Execution, n: nat, fd: Fd, source: Source, t: Thread, id: StreamId)
    requires Fair(e) && LeftAlone(e, n, fd, source, id)
    ensures !Carries(e.At(n), t, id)
  {
    if Carries(e.At(n), t, id) {
      var w := Resting(e, n, t);
      var p := (s: System) => Carries(s, t, id);
      forall k: nat | n <= k < w ensures Keeps(e, p, k) {
        if p(e.At(k)) { CarriesNext(e, n, k, fd, source, t, id); }
      }
      Holds(e, p, n, w);
      assert false;
    }
  }

  lemma NotInFlight(e: Execution, n: nat, fd: Fd, source: Source, id: StreamId)
    requires Fair(e) && LeftAlone(e, n, fd, source, id)
    ensures !InFlight(e.At(n), id)
  {
    if InFlight(e.At(n), id) {
      var t :| t in e.At(n).publishers && (e.At(n).publishers[t] == Notifying(id) || e.At(n).publishers[t] == Listing(id));
      NotCarried(e, n, fd, source, t, id);
      assert false;
    }
  }

  /** A stream that waits is served some time. */
  lemma SomeTime(e: Execution, n: nat, fd: Fd, source: Source, id: StreamId) returns (m: nat)
    requires Fair(e) && Idles(e.At(n), fd, source, id) && Waits(e.At(n), source)
    ensures m >= n && Served(e, m, fd, id)
  {
    if m': nat :| m' >= n && Served(e, m', fd, id) {
      m := m';
    } else {
      NeverServed(e, n, fd, source, id);
      StepOn(e, n);
      assert Responsible(e.At(n), fd);
      NotInTodo(e, n, fd, source, id);
      NotPending(e, n, fd, source, id);
      NotInFlight(e, n, fd, source, id);
      assert false;
    }
  }

  lemma {:induction false} First(e: Execution, n: nat, fd: Fd, id: StreamId, w: nat) returns (m: nat)
    requires n <= w && Served(e, w, fd, id)
    ensures n <= m && Served(e, m, fd, id) && forall k: nat :: n <= k < m ==> !Served(e, k, fd, id)
    decreases w
  {
    if k: nat :| n <= k < w && Served(e, k, fd, id) {
      m := First(e, n, fd, id, k);
    } else {
      m := w;
    }
  }

  // ------------------------------------------------------- what waits stays to be had

  lemma PublishersAdd(s: System, a: Action, source: Source)
    requires Waits(s, source) && Step(s, a).Some? && ByPublisher(a)
    ensures Waits(Step(s, a).value, source)
  {}

  lemma OthersDetach(s: System, other: Fd, fd: Fd, source: Source, id: StreamId)
    requires Sources(s) && Idles(s, fd, source, id) && Waits(s, source) && other in s.connections && other != fd
    ensures Waits(Closed(s, other), source)
  {
    assert SourceOf(s.connections[fd]) == Some(source);
  }

  lemma OthersPull(s: System, now: int, fd: Fd, source: Source, id: StreamId)
    requires Sources(s) && Idles(s, fd, source, id) && Waits(s, source) && DoPull(s, now).Some? && s.reactor != Driving(fd)
    ensures Waits(DoPull(s, now).value, source)
  {
    assert SourceOf(s.connections[fd]) == Some(source);
    assert SourceOf(s.connections[s.reactor.fd]) != Some(source);
  }

  lemma StillWaits(s: System, a: Action, fd: Fd, source: Source, id: StreamId)
    requires Inv(s) && Idles(s, fd, source, id) && Waits(s, source) && Step(s, a).Some?
    requires id in Step(s, a).value.streaming && !(a.PullStream? && s.reactor == Driving(fd))
    ensures Waits(Step(s, a).value, source)
  {
    if ByPublisher(a) {
      PublishersAdd(s, a, source);
    } else if a.PullStream? {
      OthersPull(s, a.now, fd, source, id);
    } else if a.Close? {
      assert IsStreaming(s, fd);
      OthersDetach(s, a.fd, fd, source, id);
    }
  }

  lemma WaitsNext(e: Execution, k: nat, fd: Fd, source: Source, id: StreamId)
    requires Idles(e.At(k), fd, source, id) && Waits(e.At(k), source)
    requires !Served(e, k, fd, id) && id in e.At(k + 1).streaming
    ensures Idles(e.At(k + 1), fd, source, id) && Waits(e.At(k + 1), source)
  {
    IdlesNext(e, k, fd, source, id);
    StepOn(e, k);
    if e.Acts(k) { StillWaits(e.At(k), e.choose(k), fd, source, id); }
  }

  lemma {:induction false} WaitsTill(e: Execution, n: nat, m: nat, fd: Fd, source: Source, id: StreamId)
    requires n <= m && Idles(e.At(n), fd, source, id) && Waits(e.At(n), source)
    requires id in e.At(m).streaming && forall k: nat :: n <= k < m ==> !Served(e, k, fd, id)
    ensures Idles(e.At(m), fd, source, id) && Waits(e.At(m), source)
    decreases m
  {
    if n < m {
      var k := m - 1;
      assert !Served(e, k, fd, id);
      WaitsTill(e, n, k, fd, source, id);
      WaitsNext(e, k, fd, source, id);
    }
  }

  /** The reactor pulls from this connection's source, and is given frames or the end of the stream. */
  ghost predicate Delivers(e: Execution, n: nat, fd: Fd, source: Source) {
    && Pulls(e, n, fd) && source in e.At(n).subscribers
    && !SseQueue.Pull(e.At(n).subscribers[source], e.choose(n).now).1.Idle?
  }

  /** No stream waits for ever. In every fair execution a connection that streams, is not itself waiting to write and has
      frames or the end of its stream to deliver, is pulled at some later point and delivers, unless its stream is closed
      first. */
  lemma WaitingStreamIsPulled(e: Execution, n: nat, fd: Fd) returns (m: nat)
    requires Fair(e) && IsStreaming(e.At(n), fd) && !e.At(n).connections[fd].writePending
    requires Waits(e.At(n), e.At(n).connections[fd].source)
    ensures var (source, id) := (e.At(n).connections[fd].source, e.At(n).connections[fd].id);
            m >= n && (id !in e.At(m).streaming || Delivers(e, m, fd, source))
  {
    var (source, id) := (e.At(n).connections[fd].source, e.At(n).connections[fd].id);
    var w := SomeTime(e, n, fd, source, id);
    m := First(e, n, fd, id, w);
    if id in e.At(m).streaming { WaitsTill(e, n, m, fd, source, id); }
  }
}
