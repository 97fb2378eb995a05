/**
 The byte-budgeted, drop-oldest queue of one event-stream subscriber
 (src/sse.cpp, `SseSubscriber`). The class holds the source's fields; each
 method is proved against a function on `Subscriber` values, and the laws below
 hold of every sequence of those functions.
 */
module SseQueue {
  import opened Text
  import SseFrames

  const OVERFLOWS_BEFORE_DISCONNECT := 4

  datatype Pulled = Wrote(text: string) | Idle | Finished

  datatype Subscriber = Subscriber(
    budget: nat, interval: int, queue: seq<string>, queuedBytes: nat, overflows: nat,
    closed: bool, detached: bool, notifier: Option<nat>, lastWrite: int)

  function Total(frames: seq<string>): nat {
    if frames == [] then 0 else |frames[0]| + Total(frames[1..])
  }

  /** Drops frames from the front until the rest fits. */
  function LongestFit(frames: seq<string>, room: nat): (r: seq<string>)
    ensures Total(r) <= room
  {
    if Total(frames) <= room then frames else LongestFit(frames[1..], room)
  }

  predicate Consistent(s: Subscriber) {
    s.queuedBytes == Total(s.queue) <= s.budget
  }

  // ------------------------------------------------------ the critical sections

  function New(budget: nat, interval: int, retry: Option<string>, now: int): Subscriber {
    var queue := if retry.Some? && |retry.value| <= budget then [retry.value] else [];
    Subscriber(budget, interval, queue, Total(queue), 0, false, false, None, now)
  }

  function CloseLocked(s: Subscriber): Subscriber {
    s.(closed := true, queue := [], queuedBytes := 0)
  }

  predicate Drops(s: Subscriber, frame: string)
    requires |frame| <= s.budget
  {
    Total(s.queue) > s.budget - |frame|
  }

  function Enqueue(s: Subscriber, frame: string): Subscriber {
    if s.closed then s
    else if |frame| > s.budget then CloseLocked(s)
    else
      var queue := LongestFit(s.queue, s.budget - |frame|) + [frame];
      var next := s.(queue := queue, queuedBytes := Total(queue),
                     overflows := s.overflows + if Drops(s, frame) then 1 else 0);
      if Drops(s, frame) && next.overflows >= OVERFLOWS_BEFORE_DISCONNECT then CloseLocked(next) else next
  }

  function Pull(s: Subscriber, now: int): (Subscriber, Pulled) {
    if s.queue == [] then (s, if s.closed then Finished else Idle)
    else (s.(queue := [], queuedBytes := 0, overflows := 0, lastWrite := now), Wrote(Concat(s.queue)))
  }

  function BeginClose(s: Subscriber): Subscriber { s.(closed := true) }

  function Attach(s: Subscriber, id: nat): Subscriber { s.(notifier := Some(id)) }

  function Detach(s: Subscriber): Subscriber {
    s.(detached := true, closed := true, notifier := None, queue := [], queuedBytes := 0)
  }

  predicate HeartbeatDue(s: Subscriber, now: int) {
    !s.closed && !s.detached && s.interval > 0 && now - s.lastWrite >= s.interval && s.queue == []
  }

  function Heartbeat(s: Subscriber, now: int): Subscriber {
    if !HeartbeatDue(s, now) then s
    else if |SseFrames.HEARTBEAT| > s.budget then CloseLocked(s).(lastWrite := now)
    else s.(queue := s.queue + [SseFrames.HEARTBEAT], queuedBytes := s.queuedBytes + |SseFrames.HEARTBEAT|, lastWrite := now)
  }

  // ------------------------------------------------------------- the fast code

  lemma TotalSnoc(frames: seq<string>, f: string)
    ensures Total(frames + [f]) == Total(frames) + |f|
  {
    if frames == [] {
      assert frames + [f] == [f];
    } else {
      TotalSnoc(frames[1..], f);
      assert (frames + [f])[1..] == frames[1..] + [f];
    }
  }

  class SseSubscriber {
    var queue: seq<string>
    var queuedBytes: nat
    const maxQueuedBytes: nat
    const heartbeatInterval: int
    var notifier: Option<nat>
    var lastWrite: int
    var consecutiveOverflows: nat
    var closed: bool
    var detached: bool

    ghost function Value(): Subscriber
      reads this
    {
      Subscriber(maxQueuedBytes, heartbeatInterval, queue, queuedBytes, consecutiveOverflows,
                 closed, detached, notifier, lastWrite)
    }

    ghost predicate Valid()
      reads this
    {
      Consistent(Value())
    }

    constructor (budget: nat, interval: int, retry: Option<string>, now: int)
      ensures Valid() && Value() == New(budget, interval, retry, now)
    {
      maxQueuedBytes, heartbeatInterval := budget, interval;
      lastWrite := now;
      queue, queuedBytes := [], 0;
      notifier, consecutiveOverflows, closed, detached := None, 0, false, false;
      if retry.Some? && |retry.value| <= budget {
        queue, queuedBytes := [retry.value], |retry.value|;
      }
    }

    method EnqueueFrame(frame: string) returns (wake: Option<nat>)
      requires Valid()
      modifies this
      ensures Valid() && Value() == Enqueue(old(Value()), frame)
      ensures wake == if old(closed) then None else old(notifier)
    {
      if closed {
        return None;
      }
      if |frame| > maxQueuedBytes {
        closed, queue, queuedBytes := true, [], 0;
        return notifier;
      }
      var dropped := false;
      while queue != [] && |frame| > maxQueuedBytes - queuedBytes
        invariant queuedBytes == Total(queue) <= maxQueuedBytes
        invariant LongestFit(queue, maxQueuedBytes - |frame|) == old(LongestFit(queue, maxQueuedBytes - |frame|))
        invariant dropped || queue == old(queue)
        invariant dropped ==> Drops(old(Value()), frame)
        modifies `queue, `queuedBytes
        decreases |queue|
      {
        queuedBytes := queuedBytes - |queue[0]|;
        queue := queue[1..];
        dropped := true;
      }
      TotalSnoc(queue, frame);
      queuedBytes := queuedBytes + |frame|;
      queue := queue + [frame];
      if dropped {
        consecutiveOverflows := consecutiveOverflows + 1;
        if consecutiveOverflows >= OVERFLOWS_BEFORE_DISCONNECT {
          closed, queue, queuedBytes := true, [], 0;
        }
      }
      return notifier;
    }

    method PullFrames(out: string, now: int) returns (out': string, outcome: Pulled)
      requires Valid() && !detached
      modifies this
      ensures Valid() && Value() == Pull(old(Value()), now).0
      ensures outcome == Pull(old(Value()), now).1
      ensures out' == if outcome.Wrote? then out + outcome.text else out
    {
      if queue == [] {
        return out, if closed then Finished else Idle;
      }
      var text := "";
      for i := 0 to |queue|
        invariant queue == old(queue) && text == Concat(queue[..i])
        modifies {}
      {
        assert queue[..i + 1] == queue[..i] + [queue[i]];
        ConcatAppend(queue[..i], [queue[i]]);
        text := text + queue[i];
      }
      assert queue[..|queue|] == queue;
      queue, queuedBytes, consecutiveOverflows, lastWrite := [], 0, 0, now;
      return out + text, Wrote(text);
    }

    method MaybeHeartbeat(now: int) returns (wake: Option<nat>)
      requires Valid()
      modifies this
      ensures Valid() && Value() == Heartbeat(old(Value()), now)
      ensures wake == if HeartbeatDue(old(Value()), now) then old(notifier) else None
    {
      if closed || detached || heartbeatInterval <= 0 || now - lastWrite < heartbeatInterval || queue != [] {
        return None;
      }
      if |SseFrames.HEARTBEAT| > maxQueuedBytes {
        closed, queue, queuedBytes := true, [], 0;
      } else {
        TotalSnoc(queue, SseFrames.HEARTBEAT);
        queuedBytes := queuedBytes + |SseFrames.HEARTBEAT|;
        queue := queue + [SseFrames.HEARTBEAT];
      }
      lastWrite := now;
      return notifier;
    }

    method Close() returns (wake: Option<nat>)
      requires Valid()
      modifies this
      ensures Valid() && Value() == BeginClose(old(Value())) && wake == old(notifier)
    {
      closed := true;
      return notifier;
    }

    method OnAttached(id: nat)
      requires Valid()
      modifies this
      ensures Valid() && Value() == Attach(old(Value()), id)
    {
      notifier := Some(id);
    }

    method OnDetached()
      requires Valid()
      modifies this
      ensures Valid() && Value() == Detach(old(Value()))
    {
      detached, closed, notifier, queue, queuedBytes := true, true, None, [], 0;
    }
  }

  // -------------------------------------------------------- laws over all runs

  ghost predicate IsSuffix(s: seq<string>, whole: seq<string>) {
    |s| <= |whole| && s == whole[|whole| - |s|..]
  }

  /** `LongestFit` is what its name says, without reference to how it drops. */
  lemma {:induction false} LongestFitIsLongest(frames: seq<string>, room: nat)
    ensures IsSuffix(LongestFit(frames, room), frames)
    ensures Total(LongestFit(frames, room)) <= room
    ensures forall s :: IsSuffix(s, frames) && Total(s) <= room ==> |s| <= |LongestFit(frames, room)|
    decreases |frames|
  {
    if Total(frames) > room {
      LongestFitIsLongest(frames[1..], room);
      forall s | IsSuffix(s, frames) && Total(s) <= room
        ensures |s| <= |LongestFit(frames, room)|
      {
        assert frames[0..] == frames;
        assert IsSuffix(s, frames[1..]);
      }
    }
  }

  lemma {:induction false} LongestFitTwice(frames: seq<string>, wide: nat, narrow: nat)
    requires narrow <= wide
    ensures LongestFit(LongestFit(frames, wide), narrow) == LongestFit(frames, narrow)
    decreases |frames|
  {
    if Total(frames) > wide {
      LongestFitTwice(frames[1..], wide, narrow);
    }
  }

  lemma {:induction false} LongestFitSnoc(frames: seq<string>, f: string, room: nat)
    requires |f| <= room
    ensures LongestFit(frames + [f], room) == LongestFit(frames, room - |f|) + [f]
    decreases |frames|
  {
    TotalSnoc(frames, f);
    if frames == [] {
      assert frames + [f] == [f];
    } else {
      assert (frames + [f])[1..] == frames[1..] + [f];
      LongestFitSnoc(frames[1..], f, room);
    }
  }

  datatype Op =
    | EnqueueOp(frame: string)
    | PullOp(now: int)
    | HeartbeatOp(now: int)
    | CloseOp
    | AttachOp(id: nat)
    | DetachOp

  function Apply(s: Subscriber, op: Op): Subscriber {
    match op
    case EnqueueOp(f) => Enqueue(s, f)
    case PullOp(now) => Pull(s, now).0
    case HeartbeatOp(now) => Heartbeat(s, now)
    case CloseOp => BeginClose(s)
    case AttachOp(id) => Attach(s, id)
    case DetachOp => Detach(s)
  }

  /** What happened, told without the queue: frames offered to an open subscriber and taken since the last
      successful pull, how many of those offers pushed an older frame out, and everything delivered. */
  datatype History = History(since: seq<string>, drops: nat, accepted: seq<string>, delivered: seq<string>, batches: seq<string>)

  /** The frame an operation adds, if the subscriber takes it. */
  function Taken(s: Subscriber, op: Op): Option<string> {
    match op
    case EnqueueOp(f) => if !s.closed && |f| <= s.budget then Some(f) else None
    case HeartbeatOp(now) => if HeartbeatDue(s, now) && |SseFrames.HEARTBEAT| <= s.budget then Some(SseFrames.HEARTBEAT) else None
    case _ => None
  }

  ghost function Record(h: History, s: Subscriber, op: Op): History {
    match Taken(s, op)
    case Some(f) =>
      var kept := LongestFit(h.since, s.budget) + [f] == LongestFit(h.since + [f], s.budget);
      h.(since := h.since + [f], drops := h.drops + if kept then 0 else 1, accepted := h.accepted + [f])
    case None =>
      if op.PullOp? && Pull(s, op.now).1.Wrote? then
        History([], 0, h.accepted, h.delivered + LongestFit(h.since, s.budget), h.batches + [Pull(s, op.now).1.text])
      else h
  }

  ghost function Run(s: Subscriber, ops: seq<Op>): Subscriber {
    if ops == [] then s else Apply(Run(s, ops[..|ops| - 1]), ops[|ops| - 1])
  }

  ghost function Past(s: Subscriber, ops: seq<Op>): History {
    if ops == [] then History(s.queue, 0, s.queue, [], [])
    else Record(Past(s, ops[..|ops| - 1]), Run(s, ops[..|ops| - 1]), ops[|ops| - 1])
  }

  ghost predicate Open(s: Subscriber) { !s.closed }

  /** The invariant of every run. */
  ghost predicate Explained(s: Subscriber, h: History) {
    && Consistent(s)
    && (Open(s) ==> s.queue == LongestFit(h.since, s.budget) && s.overflows == h.drops < OVERFLOWS_BEFORE_DISCONNECT)
    && (s.queue != [] ==> s.queue == LongestFit(h.since, s.budget))
    && (h.since != [] ==> |h.since[|h.since| - 1]| <= s.budget)
    && Subsequence(h.delivered + s.queue, h.accepted)
    && Concat(h.batches) == Concat(h.delivered)
  }

  lemma SnocDiffers(a: seq<string>, b: seq<string>, f: string)
    requires a != b
    ensures a + [f] != b + [f]
  {
    assert (a + [f])[..|a + [f]| - 1] == a && (b + [f])[..|b + [f]| - 1] == b;
  }

  /** Taking a frame is dropping the oldest of all frames since the last pull, not just of those still queued. */
  lemma TakenQueue(s: Subscriber, since: seq<string>, f: string)
    requires s.queue == LongestFit(since, s.budget) && |f| <= s.budget
    ensures LongestFit(s.queue, s.budget - |f|) + [f] == LongestFit(since + [f], s.budget)
    ensures Drops(s, f) <==> LongestFit(since, s.budget) + [f] != LongestFit(since + [f], s.budget)
  {
    LongestFitSnoc(since, f, s.budget);
    LongestFitTwice(since, s.budget, s.budget - |f|);
    var kept := LongestFit(s.queue, s.budget - |f|);
    if Drops(s, f) {
      SnocDiffers(s.queue, kept, f);
    }
  }

  lemma {:induction false} SubsequenceSnoc<T(!new)>(a: seq<T>, b: seq<T>, x: T)
    requires Subsequence(a, b)
    ensures Subsequence(a + [x], b + [x])
  {
    assert (a + [x])[..|a|] == a && (b + [x])[..|b|] == b;
  }

  lemma {:induction false} SubsequenceWiden<T(!new)>(a: seq<T>, b: seq<T>, x: T)
    requires Subsequence(a, b)
    ensures Subsequence(a, b + [x])
  {
    assert (b + [x])[..|b|] == b;
  }

  /** Deleting more elements leaves a subsequence. */
  lemma {:induction false} SubsequenceCut<T(!new)>(a: seq<T>, m: seq<T>, c: seq<T>, b: seq<T>)
    requires Subsequence(a + m + c, b)
    ensures Subsequence(a + c, b)
    decreases |b|, |c|, |m|
  {
    var whole := a + m + c;
    if b == [] || a + c == [] {
    } else {
      var b' := b[..|b| - 1];
      if whole[|whole| - 1] == b[|b| - 1] && Subsequence(whole[..|whole| - 1], b') {
        if c != [] {
          assert whole[..|whole| - 1] == a + m + c[..|c| - 1];
          SubsequenceCut(a, m, c[..|c| - 1], b');
          assert (a + c)[..|a + c| - 1] == a + c[..|c| - 1];
        } else if m != [] {
          assert whole[..|whole| - 1] == a + m[..|m| - 1] + c;
          SubsequenceCut(a, m[..|m| - 1], c, b');
          assert b == b' + [b[|b| - 1]];
          SubsequenceWiden(a + c, b', b[|b| - 1]);
        } else {
          assert whole == a + c;
        }
      } else {
        SubsequenceCut(a, m, c, b');
        assert b == b' + [b[|b| - 1]];
        SubsequenceWiden(a + c, b', b[|b| - 1]);
      }
    }
  }

  lemma DropKeepsOrder(delivered: seq<string>, queue: seq<string>, room: nat, f: string, accepted: seq<string>)
    requires Subsequence(delivered + queue, accepted)
    ensures Subsequence(delivered + (LongestFit(queue, room) + [f]), accepted + [f])
    ensures Subsequence(delivered, accepted + [f]) && Subsequence(delivered, accepted)
  {
    LongestFitIsLongest(queue, room);
    var kept := LongestFit(queue, room);
    var gone := queue[..|queue| - |kept|];
    assert delivered + queue == delivered + gone + kept;
    SubsequenceCut(delivered, gone, kept, accepted);
    SubsequenceSnoc(delivered + kept, accepted, f);
    assert delivered + kept + [f] == delivered + (kept + [f]);
    assert delivered + queue == delivered + queue + [];
    SubsequenceCut(delivered, queue, [], accepted);
    assert delivered + [] == delivered;
    SubsequenceWiden(delivered, accepted, f);
  }

  /** The history after a frame was taken. */
  ghost function Longer(h: History, f: string, more: nat): History {
    h.(since := h.since + [f], drops := h.drops + more, accepted := h.accepted + [f])
  }

  /** The subscriber with this queue. */
  function Holding(s: Subscriber, queue: seq<string>, more: nat): Subscriber {
    s.(queue := queue, queuedBytes := Total(queue), overflows := s.overflows + more)
  }

  lemma HoldingExplained(s: Subscriber, h: History, f: string, queue: seq<string>, more: nat)
    requires Explained(s, h) && Open(s) && |f| <= s.budget
    requires queue == LongestFit(h.since + [f], s.budget) && Total(queue) <= s.budget
    requires Subsequence(h.delivered + queue, h.accepted + [f]) && Subsequence(h.delivered, h.accepted + [f])
    ensures s.overflows + more < OVERFLOWS_BEFORE_DISCONNECT ==> Explained(Holding(s, queue, more), Longer(h, f, more))
    ensures Explained(CloseLocked(Holding(s, queue, more)), Longer(h, f, more))
  {
    assert h.delivered + [] == h.delivered;
  }

  lemma TakenExplained(s: Subscriber, h: History, f: string)
    requires Explained(s, h) && Open(s) && |f| <= s.budget
    ensures var (queue, more) := (LongestFit(s.queue, s.budget - |f|) + [f], if Drops(s, f) then 1 else 0);
            && (s.overflows + more < OVERFLOWS_BEFORE_DISCONNECT ==> Explained(Holding(s, queue, more), Longer(h, f, more)))
            && Explained(CloseLocked(Holding(s, queue, more)), Longer(h, f, more))
  {
    TakenQueue(s, h.since, f);
    DropKeepsOrder(h.delivered, s.queue, s.budget - |f|, f, h.accepted);
    TotalSnoc(LongestFit(s.queue, s.budget - |f|), f);
    HoldingExplained(s, h, f, LongestFit(s.queue, s.budget - |f|) + [f], if Drops(s, f) then 1 else 0);
  }

  lemma RecordsLonger(s: Subscriber, h: History, f: string)
    requires Explained(s, h) && Open(s) && |f| <= s.budget
    ensures Record(h, s, EnqueueOp(f)) == Longer(h, f, if Drops(s, f) then 1 else 0)
  {
    TakenQueue(s, h.since, f);
  }

  lemma EnqueueStep(s: Subscriber, h: History, f: string)
    requires Explained(s, h) && Open(s) && |f| <= s.budget
    ensures Explained(Enqueue(s, f), Record(h, s, EnqueueOp(f)))
  {
    TakenExplained(s, h, f);
    RecordsLonger(s, h, f);
  }

  lemma HeartbeatStep(s: Subscriber, h: History, now: int)
    requires Explained(s, h) && HeartbeatDue(s, now) && |SseFrames.HEARTBEAT| <= s.budget
    ensures Explained(Heartbeat(s, now), Record(h, s, HeartbeatOp(now)))
  {
    TakenQueue(s, h.since, SseFrames.HEARTBEAT);
    DropKeepsOrder(h.delivered, s.queue, s.budget - |SseFrames.HEARTBEAT|, SseFrames.HEARTBEAT, h.accepted);
    TotalSnoc(s.queue, SseFrames.HEARTBEAT);
    assert !Drops(s, SseFrames.HEARTBEAT);
    assert LongestFit(s.queue, s.budget - |SseFrames.HEARTBEAT|) == s.queue;
  }

  lemma PullStep(s: Subscriber, h: History, now: int)
    requires Explained(s, h) && s.queue != []
    ensures Explained(Pull(s, now).0, Record(h, s, PullOp(now)))
    ensures Record(h, s, PullOp(now)).delivered == h.delivered + s.queue
  {
    assert h.delivered + s.queue + [] == h.delivered + s.queue;
    ConcatAppend(h.delivered, s.queue);
    ConcatAppend(h.batches, [Concat(s.queue)]);
    assert Concat([Concat(s.queue)]) == Concat(s.queue);
  }

  lemma ClosingStep(s: Subscriber, h: History)
    requires Explained(s, h)
    ensures Explained(CloseLocked(s), h) && Explained(Detach(s), h) && Explained(BeginClose(s), h)
  {
    DropKeepsOrder(h.delivered, s.queue, 0, "", h.accepted);
    assert h.delivered + [] == h.delivered;
  }

  lemma ApplyStep(s: Subscriber, h: History, op: Op)
    requires Explained(s, h)
    ensures Explained(Apply(s, op), Record(h, s, op)) && Apply(s, op).budget == s.budget
  {
    ClosingStep(s, h);
    match op
    case EnqueueOp(f) => if Taken(s, op).Some? { EnqueueStep(s, h, f); }
    case HeartbeatOp(now) => if Taken(s, op).Some? { HeartbeatStep(s, h, now); }
    case PullOp(now) => if s.queue != [] { PullStep(s, h, now); }
    case _ =>
  }

  lemma FreshExplained(s: Subscriber)
    requires |s.queue| <= 1 && s.overflows == 0 && Consistent(s)
    ensures Explained(s, History(s.queue, 0, s.queue, [], []))
  {
    assert [] + s.queue == s.queue;
    if s.queue != [] {
      assert s.queue[..0] == [];
      assert Subsequence(s.queue[..0], s.queue[..0]);
    }
  }

  /** Queue optimality, in every run from a fresh subscriber: while open, the queue is the longest suffix that fits
      of the frames taken since the last successful pull, `queuedBytes` is its exact size, fewer than four of those
      frames pushed another out, and what was delivered followed by what is queued keeps the order of arrival. */
  lemma {:induction false} QueueOptimality(
    budget: nat, interval: int, retry: Option<string>, now: int, ops: seq<Op>)
    ensures var s0 := New(budget, interval, retry, now);
            Explained(Run(s0, ops), Past(s0, ops))
    ensures Run(New(budget, interval, retry, now), ops).budget == budget
    decreases |ops|
  {
    var s0 := New(budget, interval, retry, now);
    if ops == [] {
      FreshExplained(s0);
    } else {
      QueueOptimality(budget, interval, retry, now, ops[..|ops| - 1]);
      ApplyStep(Run(s0, ops[..|ops| - 1]), Past(s0, ops[..|ops| - 1]), ops[|ops| - 1]);
    }
  }

  /** Once an enqueue has closed a subscriber, its queue stays empty and it stays closed, whatever follows. */
  lemma {:induction false} ClosedForGood(s: Subscriber, ops: seq<Op>)
    requires s.closed && s.queue == []
    ensures Run(s, ops).closed && Run(s, ops).queue == []
    decreases |ops|
  {
    if ops != [] {
      ClosedForGood(s, ops[..|ops| - 1]);
    }
  }

  /** The fourth dropping enqueue between pulls disconnects; an oversized frame does so at once. */
  lemma EnqueueCloses(s: Subscriber, h: History, f: string)
    requires Explained(s, h) && Open(s)
    ensures Enqueue(s, f).closed <==>
            |f| > s.budget || (LongestFit(h.since, s.budget) + [f] != LongestFit(h.since + [f], s.budget) && h.drops == 3)
    ensures Enqueue(s, f).closed ==> Enqueue(s, f).queue == []
  {
    if |f| <= s.budget {
      TakenQueue(s, h.since, f);
    }
  }
}
