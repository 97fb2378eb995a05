/**
 One drive of a stream (src/connection.cpp, `drive_stream`) as the connection
 engine records it and as the wake-up protocol plays it: what the engine's
 history allows next is exactly what the protocol enables next.
 */
module StreamDrives {
  import opened Text
  import opened Connections
  import SseQueue
  import WakeProtocol

  type System = WakeProtocol.System
  type Action = WakeProtocol.Action
  type Fd = WakeProtocol.Fd
  type Source = WakeProtocol.Source

  /** The connection streams from this source, and waits to write exactly while the engine has a piece of it unsent. */
  ghost predicate Mirrors(s: System, fd: Fd, source: Source, life: Life) {
    && life.Live? && source in s.subscribers
    && WakeProtocol.IsStreaming(s, fd) && s.connections[fd].source == source
    && (s.connections[fd].writePending <==> life.unsent != "")
  }

  /** A pull brought what the subscriber's queue answers. */
  predicate SameAnswer(outcome: Pulled, text: string, answer: SseQueue.Pulled) {
    match answer
    case Wrote(frames) => outcome.Wrote? && text == frames
    case Idle => outcome.Idle?
    case Finished => outcome.Finished? && text == ""
  }

  // ------------------------------------------------------------------- one step

  /** A chunk can be finished in the engine exactly when the protocol's write can. */
  lemma WriteAgrees(s: System, fd: Fd, source: Source, life: Life)
    requires Mirrors(s, fd, source, life) && s.reactor == WakeProtocol.Driving(fd)
    ensures var (next, after) := (Next(life, Sent(Chunk(life.unsent))), WakeProtocol.Step(s, WakeProtocol.WriteDone));
            && (after.Some? <==> next != Misused)
            && (after.Some? ==> Mirrors(after.value, fd, source, next) && after.value.reactor == s.reactor)
  {}

  /** The source can be pulled in the engine exactly when it can in the protocol, and the drive goes on, ends or closes the
      stream in both. */
  lemma PullAgrees(s: System, fd: Fd, source: Source, life: Life, outcome: Pulled, text: string, now: int)
    requires Mirrors(s, fd, source, life) && s.reactor == WakeProtocol.Driving(fd)
    requires SameAnswer(outcome, text, SseQueue.Pull(s.subscribers[source], now).1)
    ensures var (next, after) := (Next(life, PulledFrom(outcome, text)), WakeProtocol.Step(s, WakeProtocol.PullStream(now)));
            && (after.Some? <==> next != Misused)
            && (after.Some? && next.Live? ==>
                  Mirrors(after.value, fd, source, next) && (after.value.reactor == s.reactor <==> next.unsent != ""))
            && (after.Some? && !next.Live? ==> fd !in after.value.connections)
  {}

  // --------------------------------------------------------------- a whole stream

  /** A deed of the engine, and what the protocol does before it. */
  datatype Round = Round(before: seq<Action>, deed: Deed, now: int)

  /** Publishers go on between two deeds, and the reactor leaves a blocked drive and comes back to it. */
  predicate MayIntervene(a: Action, fd: Fd) {
    WakeProtocol.ByPublisher(a) || a.WriteBlocked? || a == WakeProtocol.Ready(fd)
  }

  function ActionOf(r: Round): Action {
    if r.deed.PulledFrom? then WakeProtocol.PullStream(r.now) else WakeProtocol.WriteDone
  }

  function Schedule(rounds: seq<Round>): seq<Action> {
    if rounds == [] then [] else rounds[0].before + [ActionOf(rounds[0])] + Schedule(rounds[1..])
  }

  /** The engine's history goes on with these deeds. */
  function Onward(p: Past, rounds: seq<Round>): Past
    decreases |rounds|
  {
    if rounds == [] then p else Onward(After(p, rounds[0].deed), rounds[1..])
  }

  function Once(s: System, r: Round): System { WakeProtocol.Run(s, r.before + [ActionOf(r)]) }

  /** These deeds are writes and pulls made while the reactor drives this stream, and the pulls bring what is queued. */
  ghost predicate Plays(s: System, fd: Fd, source: Source, rounds: seq<Round>)
    decreases |rounds|
  {
    rounds != [] ==>
      var (r, ready) := (rounds[0], WakeProtocol.Run(s, rounds[0].before));
      && (forall a :: a in r.before ==> MayIntervene(a, fd))
      && ready.reactor == WakeProtocol.Driving(fd) && source in ready.subscribers
      && (r.deed.Sent? || (r.deed.PulledFrom? &&
            SameAnswer(r.deed.outcome, r.deed.text, SseQueue.Pull(ready.subscribers[source], r.now).1)))
      && Plays(Once(s, r), fd, source, rounds[1..])
  }

  lemma InterveningKeeps(s: System, a: Action, fd: Fd, source: Source, life: Life)
    requires Mirrors(s, fd, source, life) && MayIntervene(a, fd) && WakeProtocol.Step(s, a).Some?
    ensures Mirrors(WakeProtocol.Step(s, a).value, fd, source, life)
  {}

  lemma {:induction false} BeforeKeeps(s: System, before: seq<Action>, fd: Fd, source: Source, life: Life)
    requires Mirrors(s, fd, source, life) && forall a :: a in before ==> MayIntervene(a, fd)
    ensures Mirrors(WakeProtocol.Run(s, before), fd, source, life)
    decreases |before|
  {
    if before != [] {
      var (init, a) := (before[..|before| - 1], before[|before| - 1]);
      BeforeKeeps(s, init, fd, source, life);
      if WakeProtocol.Step(WakeProtocol.Run(s, init), a).Some? {
        InterveningKeeps(WakeProtocol.Run(s, init), a, fd, source, life);
      }
    }
  }

  lemma {:induction false} RunAppend(s: System, a: seq<Action>, b: seq<Action>)
    ensures WakeProtocol.Run(s, a + b) == WakeProtocol.Run(WakeProtocol.Run(s, a), b)
    decreases |b|
  {
    if b == [] {
      assert a + b == a;
    } else {
      RunAppend(s, a, b[..|b| - 1]);
      assert (a + b)[..|a + b| - 1] == a + b[..|b| - 1];
    }
  }

  lemma RoundMirrors(s: System, fd: Fd, source: Source, life: Life, r: Round)
    requires Mirrors(s, fd, source, life) && Plays(s, fd, source, [r]) && Next(life, r.deed) != Misused
    ensures var next := Next(life, r.deed);
            && WakeProtocol.Step(WakeProtocol.Run(s, r.before), ActionOf(r)) == Some(Once(s, r))
            && if next.Live? then Mirrors(Once(s, r), fd, source, next) else next == Exhausted && fd !in Once(s, r).connections
  {
    var ready := WakeProtocol.Run(s, r.before);
    BeforeKeeps(s, r.before, fd, source, life);
    assert (r.before + [ActionOf(r)])[..|r.before|] == r.before;
    if r.deed.PulledFrom? {
      PullAgrees(ready, fd, source, life, r.deed.outcome, r.deed.text, r.now);
    } else {
      WriteAgrees(ready, fd, source, life);
    }
  }

  /** A lawful history of writes and pulls was lawful all along, and ends with the pull that finishes the source. */
  lemma {:induction false} LawfulBefore(p: Past, s: System, fd: Fd, source: Source, rounds: seq<Round>)
    requires LifeIn(Onward(p, rounds)) != Misused && Plays(s, fd, source, rounds)
    ensures LifeIn(p) != Misused && (LifeIn(p) == Exhausted ==> rounds == [])
    decreases |rounds|
  {
    if rounds != [] {
      LawfulBefore(After(p, rounds[0].deed), Once(s, rounds[0]), fd, source, rounds[1..]);
    }
  }

  /** The engine's history of a stream is a schedule of the protocol: however publishers and blocked writes intervene, the
      same pulls and writes are possible there, and lead to a connection that waits to write exactly while the engine has a
      piece unsent, or to one that is closed when the source has finished. */
  lemma {:induction false} HistoryIsSchedule(s: System, fd: Fd, source: Source, p: Past, rounds: seq<Round>)
    requires Mirrors(s, fd, source, LifeIn(p)) && Plays(s, fd, source, rounds) && LifeIn(Onward(p, rounds)) != Misused
    ensures var (after, last) := (WakeProtocol.Run(s, Schedule(rounds)), LifeIn(Onward(p, rounds)));
            if last.Live? then Mirrors(after, fd, source, last) else last == Exhausted && fd !in after.connections
    decreases |rounds|
  {
    if rounds != [] {
      var (r, on) := (rounds[0], After(p, rounds[0].deed));
      assert [r][1..] == [];
      LawfulBefore(on, Once(s, r), fd, source, rounds[1..]);
      RoundMirrors(s, fd, source, LifeIn(p), r);
      RunAppend(s, r.before + [ActionOf(r)], Schedule(rounds[1..]));
      if LifeIn(on).Live? {
        HistoryIsSchedule(Once(s, r), fd, source, on, rounds[1..]);
      }
    }
  }

  /** A connection that streams, in any run, is such a state of the protocol: its history since some point at which the two
      agreed is a schedule that leads to where they agree again. */
  lemma EngineIsMirrored(c: Connection, s: System, fd: Fd, source: Source, p: Past, rounds: seq<Round>)
    requires c.Valid() && c.state == Streaming && c.stream.Some? && c.past == Onward(p, rounds)
    requires Mirrors(s, fd, source, LifeIn(p)) && Plays(s, fd, source, rounds)
    ensures var after := WakeProtocol.Run(s, Schedule(rounds));
            && WakeProtocol.IsStreaming(after, fd) && after.connections[fd].source == source
            && (after.connections[fd].writePending <==> c.writeVectors != [])
  {
    assert c.Sources() && c.Wire();
    HistoryIsSchedule(s, fd, source, p, rounds);
  }
}
