/**
 The connection engine (src/connection.cpp): six states driven by whatever the
 transport, the peer, the handlers, the stream sources and the clock do. Every
 entry point keeps `Valid()`, which speaks about the whole past of the connection
 through its ghost history.
 */
module Connections {
  import opened Text
  import opened Pipeline
  import opened Transports
  import Buffers
  import Messages
  import OneShots
  import RequestParsing
  import RequestViews

  const READ_CHUNK_BYTES := 4096
  const MAX_PIPELINED_REQUESTS_PER_STEP := 8
  const CLOSE_DRAIN_PASSES := 4
  const CLOSE_DRAIN_CHUNK_BYTES := 1024

  datatype State = Handshaking | ReadingHeaders | ReadingBody | Writing | Streaming | Closing

  datatype Interest = Done | Quiescent | ReadEvents | WriteEvents | ReadWriteEvents

  /** What a call that did not finish waits for. */
  function Wanted(r: TransportResult): Interest {
    match r
    case WantRead => ReadEvents
    case Closed => Done
    case Error => Done
    case _ => WriteEvents
  }

  datatype Options = Options(
    handshakeTimeout: nat, headerTimeout: nat, bodyTimeout: nat, writeTimeout: nat, keepAliveIdle: nat,
    streamIdleTimeout: nat, requestDeadline: nat, maxRequests: nat, retainedBytes: nat)

  /** A handler's answer: the head it encodes to with and without keep-alive, the body, and perhaps a stream source. */
  datatype Reply = Reply(source: Option<nat>, keepAliveHead: string, closeHead: string, body: string, bodiless: bool)

  datatype Pulled = Wrote | Idle | Finished

  /** What was queued for the wire: a response, whether its head promised keep-alive, and the source it announces; or a
      piece of a stream. */
  datatype Payload = Response(text: string, keepAlive: bool, source: Option<nat>) | Chunk(text: string)

  function ChunkOf(p: Payload): seq<string> { if p.Chunk? && p.text != "" then [p.text] else [] }

  /** A whole response, as it must appear on the wire. */
  function ResponseOf(reply: Reply, keepAlive: bool, suppressBody: bool): Payload {
    var head := if keepAlive then reply.keepAliveHead else reply.closeHead;
    Response(head + (if suppressBody then "" else reply.body), keepAlive, reply.source)
  }

  // ------------------------------------------------------------------- the past

  /** What a connection has done: payloads that were wholly written, and what happened to stream sources. */
  datatype Deed = Sent(payload: Payload) | Taken(source: nat) | Attached | PulledFrom(outcome: Pulled, text: string) | Detached

  datatype Past = Begin | After(before: Past, deed: Deed)

  /** Where a source is in its life; a held one has been announced when the response that names it is on the wire, and of
      an attached one a piece may have been pulled and not yet been written. */
  datatype Life = NoSource | Held(source: nat, announced: bool) | Live(unsent: string) | Exhausted | Misused

  predicate Announces(p: Payload, source: nat) { p.Response? && p.source == Some(source) }

  /** What a pull makes of an attached source. */
  function Pulling(outcome: Pulled, text: string): Life {
    if outcome.Finished? then Exhausted else Live(if HasData(outcome, text) then text else "")
  }

  function Next(life: Life, d: Deed): Life {
    match (life, d)
    case (NoSource, Taken(source)) => Held(source, false)
    case (Held(source, false), Sent(payload)) => if Announces(payload, source) then Held(source, true) else Misused
    case (Held(_, true), Attached) => Live("")
    case (Live(unsent), PulledFrom(outcome, text)) => if unsent != "" then Misused else Pulling(outcome, text)
    case (Held(_, _), Detached) => NoSource
    case (Live(_), Detached) => NoSource
    case (Exhausted, Detached) => NoSource
    case (NoSource, Sent(_)) => NoSource
    case (Live(unsent), Sent(payload)) => if unsent != "" && payload == Chunk(unsent) then Live("") else Misused
    case _ => Misused
  }

  /** A source is taken, attached at most once and only when the response that announces it is on the wire, pulled only
      while attached, not while a piece of it is unsent and never after it finished, and detached exactly once. */
  function LifeIn(p: Past): Life {
    match p
    case Begin => NoSource
    case After(before, deed) => Next(LifeIn(before), deed)
  }

  function Payloads(p: Past): seq<Payload> {
    match p
    case Begin => []
    case After(before, Sent(payload)) => Payloads(before) + [payload]
    case After(before, _) => Payloads(before)
  }

  /** The bytes of all that was wholly written, in order. */
  function Flushed(p: Past): string {
    match p
    case Begin => ""
    case After(before, Sent(payload)) => Flushed(before) + payload.text
    case After(before, _) => Flushed(before)
  }

  /** The stream pieces among it. */
  function Chunks(p: Past): seq<string> {
    match p
    case Begin => []
    case After(before, Sent(payload)) => Chunks(before) + ChunkOf(payload)
    case After(before, _) => Chunks(before)
  }

  /** The data that pulls brought, in order. */
  function Drawn(p: Past): seq<string> {
    match p
    case Begin => []
    case After(before, PulledFrom(outcome, text)) => Drawn(before) + (if HasData(outcome, text) then [text] else [])
    case After(before, _) => Drawn(before)
  }

  predicate HasData(outcome: Pulled, text: string) { !outcome.Idle? && text != "" }

  function Deeds(p: Past): seq<Deed> {
    match p
    case Begin => []
    case After(before, deed) => Deeds(before) + [deed]
  }

  /** Just before deed `i` the response that announces a source was wholly written, and before that the source was taken. */
  predicate BehindHead(deeds: seq<Deed>, i: nat)
    requires i < |deeds|
  {
    i >= 2 && deeds[i - 2].Taken? && deeds[i - 1].Sent? && Announces(deeds[i - 1].payload, deeds[i - 2].source)
  }

  /** Before deed `i` a source was attached, and neither detached nor exhausted since. */
  predicate WhileAttached(deeds: seq<Deed>, i: nat)
    requires i < |deeds|
  {
    exists j :: 0 <= j < i && deeds[j].Attached? &&
      forall k :: j < k < i ==> deeds[k].Sent? || (deeds[k].PulledFrom? && !deeds[k].outcome.Finished?)
  }

  /** What deed `i` pulled is the next thing written, unless the source is released before. */
  predicate WrittenNext(deeds: seq<Deed>, i: nat)
    requires i < |deeds| && deeds[i].PulledFrom?
  {
    HasData(deeds[i].outcome, deeds[i].text) && i + 1 < |deeds| ==>
      deeds[i + 1] == Sent(Chunk(deeds[i].text)) || deeds[i + 1].Detached?
  }

  predicate Orderly(deeds: seq<Deed>) {
    forall i :: 0 <= i < |deeds| ==>
      && (deeds[i].Attached? ==> BehindHead(deeds, i))
      && (deeds[i].PulledFrom? ==> WhileAttached(deeds, i) && WrittenNext(deeds, i))
  }

  /** What a lawful life says of the deeds themselves. */
  lemma {:induction false} LawfulLifeIsOrderly(p: Past)
    requires LifeIn(p) != Misused
    ensures Orderly(Deeds(p))
  {
    var deeds := Deeds(p);
    forall i | 0 <= i < |deeds|
      ensures deeds[i].Attached? ==> BehindHead(deeds, i)
      ensures deeds[i].PulledFrom? ==> WhileAttached(deeds, i) && WrittenNext(deeds, i)
    {
      if deeds[i].Attached? { AttachedBehindHead(p, i); }
      if deeds[i].PulledFrom? {
        var j := PulledWhileAttached(p, i);
        PulledWrittenNext(p, i);
      }
    }
  }

  lemma {:induction false} AttachedBehindHead(p: Past, i: nat)
    requires LifeIn(p) != Misused && i < |Deeds(p)| && Deeds(p)[i].Attached?
    ensures BehindHead(Deeds(p), i)
  {
    var before := p.before;
    if i < |Deeds(before)| {
      AttachedBehindHead(before, i);
    } else {
      AnnouncedJustBefore(before);
    }
  }

  lemma {:induction false} AnnouncedJustBefore(p: Past)
    requires LifeIn(p).Held? && LifeIn(p).announced
    ensures |Deeds(p)| >= 2 && Deeds(p)[|Deeds(p)| - 2] == Taken(LifeIn(p).source)
    ensures Deeds(p)[|Deeds(p)| - 1].Sent? && Announces(Deeds(p)[|Deeds(p)| - 1].payload, LifeIn(p).source)
  {
    var taking := p.before;
    assert LifeIn(taking) == Held(LifeIn(p).source, false);
    assert taking.After? && taking.deed == Taken(LifeIn(p).source);
  }

  lemma {:induction false} PulledWhileAttached(p: Past, i: nat) returns (j: nat)
    requires LifeIn(p) != Misused && i < |Deeds(p)| && Deeds(p)[i].PulledFrom?
    ensures j < i && Deeds(p)[j].Attached?
    ensures forall k :: j < k < i ==> Deeds(p)[k].Sent? || (Deeds(p)[k].PulledFrom? && !Deeds(p)[k].outcome.Finished?)
  {
    if i < |Deeds(p.before)| {
      j := PulledWhileAttached(p.before, i);
    } else {
      j := AttachedSince(p.before);
    }
  }

  lemma {:induction false} AttachedSince(p: Past) returns (j: nat)
    requires LifeIn(p).Live?
    ensures j < |Deeds(p)| && Deeds(p)[j].Attached?
    ensures forall k :: j < k < |Deeds(p)| ==> Deeds(p)[k].Sent? || (Deeds(p)[k].PulledFrom? && !Deeds(p)[k].outcome.Finished?)
  {
    if p.deed.Attached? {
      j := |Deeds(p.before)|;
    } else {
      j := AttachedSince(p.before);
    }
  }

  lemma {:induction false} PulledWrittenNext(p: Past, i: nat)
    requires LifeIn(p) != Misused && i < |Deeds(p)| && Deeds(p)[i].PulledFrom?
    ensures WrittenNext(Deeds(p), i)
  {
    if i + 1 < |Deeds(p.before)| {
      PulledWrittenNext(p.before, i);
    } else if i + 1 == |Deeds(p.before)| {
      var pulled := p.before.deed;
      assert Deeds(p)[i] == pulled && Deeds(p)[i + 1] == p.deed;
      assert LifeIn(p.before) == Pulling(pulled.outcome, pulled.text);
    }
  }

  function CountTaken(p: Past): nat {
    if p.Begin? then 0 else CountTaken(p.before) + if p.deed.Taken? then 1 else 0
  }

  function CountDetached(p: Past): nat {
    if p.Begin? then 0 else CountDetached(p.before) + if p.deed.Detached? then 1 else 0
  }

  /** Every source that was taken is detached once, unless it is the one that is still held. */
  lemma {:induction false} DetachedOnce(p: Past)
    requires LifeIn(p) != Misused
    ensures CountTaken(p) == CountDetached(p) + if LifeIn(p) == NoSource then 0 else 1
  {
    if p.After? { DetachedOnce(p.before); }
  }

  /** What was received, which requests of it were dispatched, how many answers were queued, and why what is left in the
      buffer was refused. */
  datatype Dialogue = Dialogue(
    received: string, dispatched: seq<Messages.Request>, answered: nat, refused: Option<Messages.ParseError>)

  class Connection {
    const transport: Transport
    const readBuffer: Buffers.Buffer
    const options: Options
    const parser: RequestViews.RequestParser
    ghost const parse: Parser          // one parse of a whole text, by the same limits
    var state: State
    var writeVectors: seq<string>
    var writeOffset: nat
    var pending: Option<Reply>
    var requestKeepAlive: bool
    var requestIsHead: bool
    var stream: Option<nat>
    var deadline: int
    var requestDeadline: int     // zero when there is none
    var requestsServed: nat
    var sawAnyBytes: bool
    var streamWaiting: bool
    var clock: int
    var supply: nat              // how often stream sources will still have data
    ghost var started: int             // when the first byte of the request being read arrived
    ghost var dialogue: Dialogue
    ghost var past: Past               // what was wholly written, and what happened to sources
    ghost var current: Payload         // being written; no text when there is none

    predicate IsReading()
      reads `state
    {
      state == Handshaking || state == ReadingHeaders || state == ReadingBody
    }

    /** What is queued is the current payload, and the stream pieces are what the pulls brought, in order. */
    ghost predicate Ledger()
      reads `writeVectors, `past, `current
    {
      current.text == Concat(writeVectors) && Drawn(past) == Chunks(past) + ChunkOf(current)
    }

    /** Wire exactness: the accepted bytes are the finished payloads and a prefix of the current one. */
    ghost predicate Wire()
      reads `writeVectors, `writeOffset, `past, `current, transport`sent
    {
      && writeOffset <= |current.text|
      && transport.sent == Flushed(past) + current.text[..writeOffset]
      && (writeVectors == [] <==> current.text == "")
    }

    /** The retry discipline: a blocked write is waiting for exactly the unsent bytes. */
    ghost predicate Retry()
      reads `writeOffset, `current, transport`kind, transport`record, transport`scratch, transport`scratchAddress
      reads transport`stalledAddress, transport`stalledLength, transport`badRetries
    {
      && transport.Valid() && transport.badRetries == 0
      && writeOffset <= |current.text|
      && (transport.Stalled() ==> transport.scratch == current.text[writeOffset..] && writeOffset < |current.text|)
    }

    ghost predicate Output()
      reads `writeVectors, `writeOffset, `past, `current, transport`sent, transport`kind, transport`record, transport`scratch
      reads transport`scratchAddress, transport`stalledAddress, transport`stalledLength, transport`badRetries
    {
      Ledger() && Wire() && Retry()
    }

    /** Chunking independence: the dispatched requests are the stream's, the buffer holds the rest, and what was refused is
        that rest. */
    ghost predicate Input()
      reads `dialogue, readBuffer
    {
      && Stable(parse) && readBuffer.Valid() && Splits(parse, dialogue.received, dialogue.dispatched, readBuffer.Readable())
      && (dialogue.refused.Some? ==> parse(readBuffer.Readable()) == Refused(dialogue.refused.value))
    }

    /** The request deadline runs from the first buffered byte to the answer, and caps every phase in between. */
    ghost predicate Deadlines()
      reads `state, `clock, `requestDeadline, `deadline, `sawAnyBytes, `started, `streamWaiting, `current, `writeOffset
      reads readBuffer
    {
      && readBuffer.Valid() && clock > 0 && requestDeadline >= 0
      && (IsReading() ==>
            && (sawAnyBytes <==> readBuffer.Readable() != "")
            && (sawAnyBytes <==> requestDeadline != 0)
            && (sawAnyBytes ==> requestDeadline == started + options.requestDeadline && started <= clock)
            && (sawAnyBytes ==> deadline <= requestDeadline)
            && (state == ReadingBody ==> sawAnyBytes))
      && (streamWaiting ==> state == Streaming && writeOffset < |current.text|)
    }

    ghost predicate Sources()
      reads `state, `writeVectors, `writeOffset, `pending, `stream, `past, `current
    {
      && (IsReading() ==> writeVectors == [] && pending.None? && stream.None? && writeOffset == 0)
      && LifeIn(past) == (if stream.None? then NoSource
                          else if state == Streaming then Live(current.text)
                          else Held(stream.value, false))
      && (state == Closing ==> stream.None?)
      && (state == Streaming ==> current.Chunk?)
    }

    /** The promise made by a head is the decision taken when it has been written, and nothing follows a refusal. */
    ghost predicate Promise()
      reads `state, `pending, `writeVectors, `writeOffset, `current, `stream, `requestKeepAlive, `requestsServed, `dialogue
      reads transport`last
    {
      && (state == Writing ==>
            && pending.Some? && writeVectors != []
            && stream == pending.value.source
            && current.Response? && current.source == stream
            && (current.keepAlive <==> PromisesKeepAlive(pending.value))
            && (writeOffset == |current.text| ==> transport.last.Ok?))
      && (dialogue.refused.Some? ==> state == Closing || (state == Writing && !requestKeepAlive && stream.None?))
    }

    /** Nothing is read or written before the handshake has succeeded. */
    ghost predicate Greeted()
      reads `state, transport`shaken
    {
      if state == Handshaking then !transport.shaken else state == Closing || transport.shaken
    }

    /** The interest answered to the reactor fits the state: a blocked call waits for what it needs, unsent bytes are never
        left without a write in sight, and only an idle stream goes quiet. */
    ghost predicate Awaits(interest: Interest)
      reads `state, `writeVectors, `sawAnyBytes, transport`last
    {
      match state
      case Handshaking => interest == Wanted(transport.last)
      case Writing => interest == Wanted(transport.last)
      case Streaming =>
        interest == if writeVectors == [] then Quiescent else if transport.last.WantRead? then ReadEvents else WriteEvents
      case Closing => interest == Done
      case _ =>
        && (interest == ReadEvents || interest == WriteEvents || interest == ReadWriteEvents)
        && (interest == WriteEvents ==> transport.last.WantWrite?)
        && (interest == ReadWriteEvents ==> sawAnyBytes)
    }

    /** Nothing was wholly written and no data drawn; at most something happened to a source. */
    twostate predicate Kept()
      reads `past
    {
      && Payloads(past) == Payloads(old(past)) && Flushed(past) == Flushed(old(past))
      && Chunks(past) == Chunks(old(past)) && Drawn(past) == Drawn(old(past))
    }

    /** At most bytes were received. */
    twostate predicate Heard()
      reads `dialogue
    {
      dialogue == old(dialogue).(received := dialogue.received) && old(dialogue.received) <= dialogue.received
    }

    /** The incremental parser has seen a prefix of the buffer while a request is read, and nothing otherwise. */
    ghost predicate Parsing()
      reads `state, readBuffer, parser
    {
      && readBuffer.Valid() && parser.Valid() && OneShots.Follows(parse, parser.limits)
      && (state == Closing || Prefix(parser.seen, if IsReading() then readBuffer.Readable() else ""))
    }

    /** History is only added to, and ends with a refusal. */
    twostate predicate Grew()
      reads `past, `dialogue
    {
      && Payloads(old(past)) <= Payloads(past)
      && old(dialogue.received) <= dialogue.received
      && old(dialogue.dispatched) <= dialogue.dispatched && old(dialogue.answered) <= dialogue.answered
      && (old(dialogue.refused).Some? ==> dialogue == old(dialogue).(received := dialogue.received))
    }

    /** Until it is answered, a request that has begun keeps its deadline. */
    twostate predicate Pending()
      reads `state, `sawAnyBytes, `requestDeadline, `dialogue
    {
      old(IsReading() && sawAnyBytes) && dialogue.answered == old(dialogue.answered) ==>
        requestDeadline == old(requestDeadline) && (state == Closing || (IsReading() && sawAnyBytes))
    }

    /** A stream only streams or closes, and while no byte of it is accepted a stalled one keeps its deadline. */
    twostate predicate Stalls()
      reads `state, `streamWaiting, `deadline, transport`sent
    {
      old(state) == Streaming && state != Closing ==>
        && state == Streaming && |transport.sent| >= |old(transport.sent)|
        && (old(streamWaiting) && |transport.sent| == |old(transport.sent)| ==> streamWaiting && deadline == old(deadline))
    }

    /** Closing is final. */
    twostate predicate Ends()
      reads `state, `requestDeadline, `dialogue
    {
      old(state) == Closing ==>
        state == Closing && requestDeadline == old(requestDeadline) && dialogue.answered == old(dialogue.answered)
    }

    /** What every event keeps, and therefore every run. */
    twostate predicate Lawful()
      reads `state, `sawAnyBytes, `streamWaiting, `deadline, `requestDeadline, `dialogue, `past, transport`sent
    {
      Grew() && Pending() && Stalls() && Ends()
    }

    /** The turn ended with an empty buffer but without a read that blocked: the eighth answer of a turn was the last, or
        the body that was being read ended where the buffer does. */
    twostate predicate TurnOver()
      reads `state, `dialogue, readBuffer
    {
      && readBuffer.Valid() && readBuffer.Readable() == ""
      && var answers := dialogue.answered - old(dialogue.answered);
      if old(state) == ReadingBody then answers == 1 || answers == 1 + MAX_PIPELINED_REQUESTS_PER_STEP
      else answers == MAX_PIPELINED_REQUESTS_PER_STEP
    }

    /** Between requests, a wait for bytes follows a read that blocked exactly unless the turn is over. */
    twostate predicate WaitsFor(interest: Interest)
      reads `state, `dialogue, readBuffer, transport`last, transport`held
    {
      IsReading() && state != Handshaking && interest == ReadEvents ==>
        if TurnOver() then !transport.last.WantRead? else Blocked()
    }

    /** Waiting for bytes to arrive is safe after a read that blocked, for then no decrypted byte is held back. */
    ghost predicate Blocked()
      reads transport`last, transport`held
    {
      transport.last.WantRead? && transport.held == 0
    }

    /** The latest read blocked, and this interest is what it waits for. */
    ghost predicate HasBlocked(interest: Interest)
      reads transport`last, transport`held
    {
      transport.last.IsBlocked() && interest == Wanted(transport.last) && (transport.last.WantRead? ==> Blocked())
    }

    ghost predicate Valid()
      reads this, transport, readBuffer
    {
      Output() && Input() && Deadlines() && Sources() && Promise() && Greeted()
    }

    constructor (transport: Transport, options: Options, limits: RequestParsing.Limits, now: int, supply: nat)
      requires transport.Valid() && !transport.Stalled() && !transport.shaken
      requires transport.sent == "" && transport.badRetries == 0 && now > 0
      ensures Valid() && Parsing() && state == Handshaking && Payloads(past) == [] && dialogue == Dialogue("", [], 0, None)
      ensures this.transport == transport && this.options == options && parse == OneShots.OneShot(limits)
      ensures fresh(readBuffer) && fresh(parser)
    {
      OneShots.OneShotIsStable(limits);
      var buffer := new Buffers.Buffer(Buffers.INITIAL_BUFFER_BYTES);
      var incremental := new RequestViews.RequestParser(limits);
      this.transport, this.options, this.supply, clock := transport, options, supply, now;
      readBuffer, parser, parse := buffer, incremental, OneShots.OneShot(limits);
      state := Handshaking;
      deadline := now + options.handshakeTimeout;
      writeVectors, writeOffset, pending, requestKeepAlive, requestIsHead := [], 0, None, false, false;
      stream, requestDeadline, requestsServed, sawAnyBytes, streamWaiting := None, 0, 0, false, false;
      past, current, dialogue, started := Begin, Chunk(""), Dialogue("", [], 0, None), 0;
    }

    // ------------------------------------------------------------ clock and states

    method Now() returns (t: int)
      modifies `clock
      ensures t == clock >= old(clock)
    {
      var passed :| passed >= 0;
      clock := clock + passed;
      return clock;
    }

    /** The request deadline caps every phase but streaming. */
    function Capped(time: int): int
      reads `state, `requestDeadline
    {
      if requestDeadline != 0 && state != Streaming && time > requestDeadline then requestDeadline else time
    }

    method ArmDeadline(budget: nat)
      modifies `clock, `deadline
      ensures clock >= old(clock) && deadline == Capped(clock + budget)
    {
      var t := Now();
      deadline := t + budget;
      if requestDeadline != 0 && state != Streaming && deadline > requestDeadline {
        deadline := requestDeadline;
      }
    }

    /** How long a state may last. */
    function Budget(next: State): nat
      reads `sawAnyBytes, `requestsServed
    {
      match next
      case Handshaking => options.handshakeTimeout
      case ReadingHeaders => if !sawAnyBytes && requestsServed > 0 then options.keepAliveIdle else options.headerTimeout
      case ReadingBody => options.bodyTimeout
      case Streaming => options.streamIdleTimeout
      case _ => options.writeTimeout
    }

    method EnterState(next: State)
      modifies `state, `clock, `deadline
      ensures state == next && clock >= old(clock) && deadline == Capped(clock + Budget(next))
    {
      state := next;
      match next {
        case Handshaking => ArmDeadline(options.handshakeTimeout);
        case ReadingHeaders =>
          ArmDeadline(if !sawAnyBytes && requestsServed > 0 then options.keepAliveIdle else options.headerTimeout);
        case ReadingBody => ArmDeadline(options.bodyTimeout);
        case Writing => ArmDeadline(options.writeTimeout);
        case Streaming => ArmDeadline(options.streamIdleTimeout);
        case Closing => ArmDeadline(options.writeTimeout);
      }
    }

    /** There is a source to release exactly when one is held. */
    ghost predicate Holding()
      reads `stream, `past
    {
      LifeIn(past) != Misused && (LifeIn(past) == NoSource <==> stream.None?)
    }

    method ReleaseStreamSource()
      requires Holding()
      modifies `stream, `streamWaiting, `past
      ensures Kept() && stream.None? && !streamWaiting && LifeIn(past) == NoSource
      ensures old(stream).None? ==> unchanged(`past)
    {
      streamWaiting := false;
      if stream.Some? {
        past := After(past, Detached);
        stream := None;
      }
    }

    /** Releases the source, half-closes, and never writes again. */
    method BeginClose()
      requires Output() && Input() && clock > 0 && requestDeadline >= 0
      requires Holding()
      requires state == Closing ==> Valid()
      modifies `state, `clock, `deadline, `stream, `streamWaiting, `past
      ensures Valid() && state == Closing && Kept() && (old(state) == Closing ==> unchanged(this))
      ensures old(stream).None? ==> unchanged(`past)
    {
      if state != Closing {
        EnterClosing();
      }
    }

    method EnterClosing()
      requires Output() && Input() && clock > 0 && requestDeadline >= 0
      requires Holding()
      modifies `state, `clock, `deadline, `stream, `streamWaiting, `past
      ensures Valid() && state == Closing && Kept() && (old(stream).None? ==> unchanged(`past))
    {
      ReleaseStreamSource();
      assert Output();
      EnterState(Closing);
      assert Output() && Input();
      assert Deadlines();
      assert Sources();
      assert Promise();
      assert Greeted();
    }

    /** Drains a little of what the peer still sends and is done. */
    method DriveClose() returns (interest: Interest)
      requires Valid() && state == Closing
      modifies transport`incoming, transport`held, transport`readCalls, transport`last
      ensures Valid() && interest == Done && transport.incoming <= old(transport.incoming)
      ensures transport.readCalls <= old(transport.readCalls) + CLOSE_DRAIN_PASSES
    {
      for pass := 0 to CLOSE_DRAIN_PASSES
        invariant Valid() && transport.incoming <= old(transport.incoming)
        invariant transport.readCalls <= old(transport.readCalls) + pass
        modifies transport`incoming, transport`held, transport`readCalls, transport`last
      {
        var r, _ := transport.Read(CLOSE_DRAIN_CHUNK_BYTES);
        if r.IsTerminal() || r.IsBlocked() || r.bytes == 0 { break; }
      }
      return Done;
    }

    method CloseNow() returns (interest: Interest)
      requires Output() && Input() && clock > 0 && requestDeadline >= 0
      requires Holding()
      requires state == Closing ==> Valid()
      modifies `state, `clock, `deadline, `stream, `streamWaiting, `past
      modifies transport`incoming, transport`held, transport`readCalls, transport`last
      ensures Valid() && state == Closing && interest == Done && transport.incoming <= old(transport.incoming)
      ensures Kept() && (old(state) == Closing ==> unchanged(this)) && (old(stream).None? ==> unchanged(`past))
    {
      BeginClose();
      interest := DriveClose();
    }

    /** Closing while there is nothing to be written. */
    method Shut() returns (stop: Option<Interest>)
      requires Valid() && Parsing() && IsReading()
      modifies `state, `clock, `deadline, `stream, `streamWaiting, `past
      modifies transport`incoming, transport`held, transport`readCalls, transport`last
      ensures Valid() && Parsing() && state == Closing && stop == Some(Done) && transport.incoming <= old(transport.incoming)
      ensures unchanged(`past) && Heard() && Pending()
    {
      var interest := CloseNow();
      return Some(interest);
    }

    // ---------------------------------------------------------------- the wire

    /** The pieces still to be written. */
    method UnsentBatch() returns (batch: seq<string>)
      requires Ledger() && writeOffset < |current.text|
      ensures Concat(batch) == current.text[writeOffset..] != ""
    {
      UnsentIsTheRest(writeVectors, writeOffset);
      UnsentCount(writeVectors, writeOffset);
      batch := BuildBatch(writeVectors, writeOffset, |writeVectors|);
      assert batch == Unsent(writeVectors, writeOffset);
    }

    /** One attempt to write the unsent bytes. */
    method FlushStep() returns (r: TransportResult)
      requires Output() && writeOffset < |current.text|
      modifies `writeOffset, transport
      ensures transport.shaken == old(transport.shaken)
      ensures Output() && transport.incoming == old(transport.incoming)
      ensures writeOffset == old(writeOffset) + if r.Ok? then r.bytes else 0
      ensures transport.last == r
      ensures |transport.sent| - |old(transport.sent)| == writeOffset - old(writeOffset)
    {
      var batch := UnsentBatch();
      r := transport.Writev(batch);
      if r.Ok? {
        PrefixGrows(Flushed(past), current.text, writeOffset, r.bytes);
        writeOffset := writeOffset + r.bytes;
      }
    }

    /** Everything queued was written: it joins the finished payloads. */
    method ClearWritten()
      requires Output() && writeOffset == |current.text|
      modifies `writeVectors, `writeOffset, `past, `current
      ensures Output() && writeVectors == [] && writeOffset == 0 && current == Chunk("")
      ensures past == if old(writeVectors) == [] then old(past) else After(old(past), Sent(old(current)))
    {
      if writeVectors != [] {
        past := After(past, Sent(current));
      }
      assert current.text[..writeOffset] == current.text;
      writeVectors, writeOffset, current := [], 0, Chunk("");
    }

    method Queue(vectors: seq<string>, ghost payload: Payload)
      requires Output() && writeVectors == [] && writeOffset == 0 && payload.Response?
      requires vectors != [] && Concat(vectors) == payload.text != ""
      modifies `writeVectors, `current
      ensures Output() && writeVectors == vectors && current == payload
    {
      writeVectors, current := vectors, payload;
    }

    // ---------------------------------------------------------------- answering

    /** Router, handlers and response encoding: any reply with a head. */
    method Handle() returns (reply: Reply)
      ensures reply.keepAliveHead != "" && reply.closeHead != ""
    {
      var source: Option<nat>, body: string, bodiless: bool := *, *, *;
      var first: char, line: string, other: string := *, *, *;
      reply := Reply(source, [first] + line, [first] + other, body, bodiless);
    }

    /** Nothing queued, nothing pending, no source: a response may be produced. */
    ghost predicate MayAnswer()
      reads this, transport, readBuffer
    {
      && Output() && Input() && clock > 0
      && writeVectors == [] && writeOffset == 0 && stream.None? && LifeIn(past) == NoSource
      && !streamWaiting && transport.shaken
      && (pending.Some? ==> pending.value.source.None? && pending.value.keepAliveHead != "" && pending.value.closeHead != "")
      && (dialogue.refused.Some? ==> pending.Some? && !requestKeepAlive)
    }

    predicate SuppressesBody(response: Reply)
      reads `requestIsHead
    {
      response.source.Some? || requestIsHead || response.bodiless
    }

    predicate PromisesKeepAlive(response: Reply)
      reads `requestKeepAlive, `requestsServed
    {
      response.source.None? && requestKeepAlive && requestsServed + 1 < options.maxRequests
    }

    /** The vectors of a response: its head, and its body unless it is empty or suppressed. */
    method QueueResponse(response: Reply)
      requires Output() && writeVectors == [] && writeOffset == 0
      requires response.keepAliveHead != "" && response.closeHead != ""
      modifies `writeVectors, `current
      ensures Output() && writeVectors != []
      ensures current == ResponseOf(response, PromisesKeepAlive(response), SuppressesBody(response))
    {
      var head := if PromisesKeepAlive(response) then response.keepAliveHead else response.closeHead;
      ConcatPair(head, response.body);
      if !SuppressesBody(response) && response.body != "" {
        Queue([head, response.body], ResponseOf(response, PromisesKeepAlive(response), SuppressesBody(response)));
      } else {
        Queue([head], ResponseOf(response, PromisesKeepAlive(response), SuppressesBody(response)));
      }
    }

    /** A streaming reply's source is held from now on. */
    method TakeSource(response: Reply)
      requires stream.None? && LifeIn(past) == NoSource
      modifies `stream, `past
      ensures Kept() && stream == response.source
      ensures LifeIn(past) == if stream.None? then NoSource else Held(stream.value, false)
    {
      if response.source.Some? {
        past := After(past, Taken(response.source.value));
        stream := response.source;
      }
    }

    /** The reply that is already pending, or the handlers' one. */
    method ChooseReply()
      requires pending.Some? ==> pending.value.keepAliveHead != "" && pending.value.closeHead != ""
      modifies `pending
      ensures pending.Some? && pending.value.keepAliveHead != "" && pending.value.closeHead != ""
      ensures old(pending).Some? ==> pending == old(pending)
    {
      if pending.None? {
        var reply := Handle();
        pending := Some(reply);
      }
    }

    /** Takes the reply's source and queues its bytes. */
    method Serialize(response: Reply)
      requires Output() && writeVectors == [] && writeOffset == 0 && stream.None? && LifeIn(past) == NoSource
      requires response.keepAliveHead != "" && response.closeHead != ""
      modifies `stream, `past, `writeVectors, `current
      ensures Output() && Kept() && writeVectors != [] && stream == response.source
      ensures LifeIn(past) == if stream.None? then NoSource else Held(stream.value, false)
      ensures current == ResponseOf(response, PromisesKeepAlive(response), SuppressesBody(response))
    {
      TakeSource(response);
      QueueResponse(response);
    }

    /** Sends the pending reply, or asks the handlers for one. */
    method DispatchAndSerialize()
      requires MayAnswer()
      modifies `pending, `stream, `past, `writeVectors, `current, `requestDeadline
      ensures Output() && Kept() && writeVectors != [] && requestDeadline == 0
      ensures pending.Some? && (old(pending).Some? ==> pending == old(pending))
      ensures stream == pending.value.source && LifeIn(past) == if stream.None? then NoSource else Held(stream.value, false)
      ensures current == ResponseOf(pending.value, PromisesKeepAlive(pending.value), SuppressesBody(pending.value))
    {
      ChooseReply();
      Serialize(pending.value);
      requestDeadline := 0;
    }

    /** One more answer is on its way. */
    method Answer()
      requires MayAnswer()
      modifies `pending, `stream, `past, `writeVectors, `current, `dialogue, `requestDeadline, `state, `clock, `deadline
      ensures Valid() && state == Writing && dialogue == old(dialogue.(answered := dialogue.answered + 1))
      ensures Payloads(past) == Payloads(old(past)) && (current.keepAlive ==> requestKeepAlive)
    {
      DispatchAndSerialize();
      dialogue := dialogue.(answered := dialogue.answered + 1);
      StartWriting();
    }

    /** The queued response is sent from now on. */
    method StartWriting()
      requires Output() && Input() && clock > 0 && requestDeadline == 0 && !streamWaiting && transport.shaken
      requires writeVectors != [] && writeOffset < |current.text| && pending.Some? && stream == pending.value.source
      requires LifeIn(past) == if stream.None? then NoSource else Held(stream.value, false)
      requires current == ResponseOf(pending.value, PromisesKeepAlive(pending.value), SuppressesBody(pending.value))
      requires dialogue.refused.Some? ==> !requestKeepAlive && stream.None?
      modifies `state, `clock, `deadline
      ensures Valid() && state == Writing
    {
      EnterState(Writing);
      assert Output() && Input();
      assert Deadlines();
      assert Sources();
      assert Promise();
    }

    /** The parsed request leaves the buffer and is the stream's next. */
    method AdoptRequest(request: Messages.Request, consumed: nat)
      requires Valid() && (state == ReadingHeaders || state == ReadingBody)
      requires parse(readBuffer.Readable()) == Whole(request, consumed)
      modifies `requestKeepAlive, `requestIsHead, `dialogue, readBuffer
      ensures MayAnswer()
      ensures dialogue == old(dialogue.(dispatched := dialogue.dispatched + [request]))
    {
      ghost var before := readBuffer.Readable();
      assert before + "" == before;
      assert parse(before + "") == parse(before);
      SplitsNext(parse, dialogue.received, dialogue.dispatched, before);
      requestKeepAlive := request.keepAlive;
      requestIsHead := request.verb == Messages.Method.Head;
      readBuffer.Consume(consumed);
      dialogue := dialogue.(dispatched := dialogue.dispatched + [request]);
    }

    method AnswerRequest(request: Messages.Request, consumed: nat)
      requires Valid() && (state == ReadingHeaders || state == ReadingBody)
      requires parse(readBuffer.Readable()) == Whole(request, consumed)
      modifies this, readBuffer
      ensures Valid() && state == Writing
      ensures dialogue == old(dialogue.(dispatched := dialogue.dispatched + [request], answered := dialogue.answered + 1))
      ensures Payloads(past) == Payloads(old(past))
    {
      AdoptRequest(request, consumed);
      Answer();
    }

    /** An error response, to what the parser refused or to nothing but the passing of time; it always closes. */
    method SerializeError(ghost why: Option<Messages.ParseError>)
      requires Valid() && (state == ReadingHeaders || state == ReadingBody)
      requires why.Some? ==> parse(readBuffer.Readable()) == Refused(why.value)
      requires parser.Valid()
      modifies `pending, `stream, `past, `writeVectors, `current, `dialogue, `requestDeadline, `state, `clock, `deadline
      modifies `requestKeepAlive, `requestIsHead, parser
      ensures parser.Valid() && parser.seen == ""
      ensures Valid() && state == Writing && !current.keepAlive
      ensures dialogue == old(dialogue.(refused := why, answered := dialogue.answered + 1))
      ensures Payloads(past) == Payloads(old(past))
    {
      parser.Reset();
      Discard(why);
      Answer();
    }

    /** Instead of the request there is only an error to be answered. */
    method Discard(ghost why: Option<Messages.ParseError>)
      requires Valid() && (state == ReadingHeaders || state == ReadingBody)
      requires why.Some? ==> parse(readBuffer.Readable()) == Refused(why.value)
      modifies `dialogue, `requestKeepAlive, `requestIsHead, `pending
      ensures MayAnswer() && !requestKeepAlive && dialogue == old(dialogue.(refused := why))
    {
      dialogue := dialogue.(refused := why);
      requestKeepAlive, requestIsHead := false, false;
      var reply := Handle();
      pending := Some(reply.(source := None));
    }

    // ------------------------------------------------------------------ writing

    method DriveWrite() returns (interest: Interest)
      requires Valid() && state == Writing
      modifies this, transport, readBuffer
      ensures Valid() && transport.incoming <= old(transport.incoming)
      ensures unchanged(`dialogue)
      ensures state == Writing || state == ReadingHeaders || state == Closing || state == Streaming
      ensures state == Writing ==> interest != Quiescent
      ensures state == Writing ==> current == old(current) && Payloads(past) == Payloads(old(past))
      ensures Payloads(old(past)) <= Payloads(past) && Awaits(interest)
      ensures state != Writing ==> Payloads(old(past)) + [old(current)] <= Payloads(past)
      ensures state != Writing ==> (state == ReadingHeaders <==> old(current).keepAlive)
      ensures state == ReadingHeaders ==> interest == ReadEvents && transport.last.Ok?
    {
      while writeOffset < |Concat(writeVectors)|
        invariant Valid() && state == Writing && transport.incoming == old(transport.incoming)
        modifies `writeOffset, transport
        decreases |current.text| - writeOffset
      {
        var r := FlushStep();
        if !r.Ok? || r.bytes == 0 { return Wanted(r); }
      }
      interest := CompleteWrite();
    }

    /** The response is on the wire: attach its stream, close, or wait for the next request. */
    method CompleteWrite() returns (interest: Interest)
      requires Valid() && state == Writing && writeOffset == |current.text|
      modifies `state, `clock, `deadline, `stream, `streamWaiting, `past, `writeOffset, `writeVectors, `current, `supply
      modifies `requestsServed, `pending, `requestKeepAlive, `requestIsHead, `sawAnyBytes, `started, `requestDeadline
      modifies transport, readBuffer
      ensures Valid() && transport.incoming <= old(transport.incoming)
      ensures (state == ReadingHeaders || state == Closing || state == Streaming) && Awaits(interest)
      ensures Payloads(old(past)) + [old(current)] <= Payloads(past) && Payloads(old(past)) <= Payloads(past)
      ensures state == ReadingHeaders <==> old(current).keepAlive
      ensures state == ReadingHeaders ==> interest == ReadEvents && transport.last.Ok?
    {
      var streaming := pending.value.source.Some?;
      ClearWritten();
      if streaming && stream.Some? && !requestIsHead {
        pending := None;
        interest := AttachStream();
        return;
      }
      interest := EndExchange(!streaming);
    }

    /** A response without a stream to attach is over. */
    method EndExchange(mayReuse: bool) returns (interest: Interest)
      requires Output() && Input() && clock > 0 && requestDeadline >= 0 && writeVectors == [] && writeOffset == 0
      requires state == Writing && !streamWaiting && Holding()
      requires (dialogue.refused.Some? ==> !requestKeepAlive) && transport.shaken
      modifies `state, `clock, `deadline, `stream, `streamWaiting, `past, `requestsServed, `pending
      modifies `requestKeepAlive, `requestIsHead, `sawAnyBytes, `started, `requestDeadline, readBuffer
      modifies transport`incoming, transport`held, transport`readCalls, transport`last
      ensures Valid() && Awaits(interest) && transport.incoming <= old(transport.incoming)
      ensures Payloads(past) == Payloads(old(past))
      ensures state == ReadingHeaders ==> interest == ReadEvents && transport.last == old(transport.last)
      ensures state == if mayReuse && old(requestKeepAlive && requestsServed + 1 < options.maxRequests)
                       then ReadingHeaders else Closing
    {
      DropExchange();
      if !(mayReuse && requestKeepAlive && requestsServed < options.maxRequests) {
        interest := CloseNow();
        return;
      }
      interest := ServeNext();
    }

    method DropExchange()
      requires Output() && Input() && Holding()
      modifies `requestsServed, `pending, `stream, `streamWaiting, `past
      ensures Output() && Input() && Kept() && requestsServed == old(requestsServed) + 1
      ensures stream.None? && LifeIn(past) == NoSource && pending.None? && !streamWaiting
    {
      requestsServed := requestsServed + 1;
      ReleaseStreamSource();
      pending := None;
    }

    /** Bytes of the next request may already be buffered, and start its budget. */
    method PrepareNext()
      requires Output() && Input() && clock > 0
      modifies `requestKeepAlive, `requestIsHead, `sawAnyBytes, `started, `clock, `requestDeadline, readBuffer
      ensures Output() && Input() && clock > 0 && requestDeadline >= 0
      ensures sawAnyBytes ==> requestDeadline == started + options.requestDeadline && old(clock) <= started <= clock
      ensures (sawAnyBytes <==> readBuffer.Readable() != "") && (sawAnyBytes <==> requestDeadline != 0)
    {
      requestKeepAlive, requestIsHead := false, false;
      Reclaim();
      BudgetNext();
    }

    method BudgetNext()
      requires readBuffer.Valid() && clock > 0
      modifies `sawAnyBytes, `started, `clock, `requestDeadline
      ensures old(clock) <= clock && requestDeadline >= 0
      ensures sawAnyBytes ==> requestDeadline == started + options.requestDeadline && old(clock) <= started <= clock
      ensures (sawAnyBytes <==> readBuffer.Readable() != "") && (sawAnyBytes <==> requestDeadline != 0)
    {
      sawAnyBytes := readBuffer.Readable() != "";
      var t := Now();
      if sawAnyBytes { started := t; }
      requestDeadline := if sawAnyBytes then t + options.requestDeadline else 0;
    }

    method Reclaim()
      requires Input()
      modifies readBuffer
      ensures Input() && readBuffer.Readable() == old(readBuffer.Readable())
    {
      readBuffer.CompactAndReclaim(options.retainedBytes);
    }

    method ServeNext() returns (interest: Interest)
      requires Output() && Input() && clock > 0 && writeVectors == [] && writeOffset == 0
      requires stream.None? && LifeIn(past) == NoSource && pending.None? && !streamWaiting
      requires dialogue.refused.None? && transport.shaken
      modifies `requestKeepAlive, `requestIsHead, `sawAnyBytes, `started, `clock, `requestDeadline, `state, `deadline, readBuffer
      ensures Valid() && state == ReadingHeaders && interest == ReadEvents
    {
      PrepareNext();
      EnterState(ReadingHeaders);
      assert Output() && Input();
      assert Deadlines();
      assert Sources();
      assert Promise();
      return ReadEvents;
    }

    // ---------------------------------------------------------------- streaming

    /** The last payload written is the response that announces this source. */
    ghost predicate JustAnnounced()
      reads `stream, `past
    {
      && stream.Some? && past.After? && past.deed.Sent? && Announces(past.deed.payload, stream.value)
      && LifeIn(past) == Held(stream.value, true)
    }

    /** The head of a stream is written: attach the source and start pulling. */
    method AttachStream() returns (interest: Interest)
      requires Output() && Input() && clock > 0 && requestDeadline >= 0 && writeVectors == [] && writeOffset == 0
      requires current == Chunk("") && state == Writing && JustAnnounced() && pending.None? && !streamWaiting
      requires dialogue.refused.None? && transport.shaken
      modifies `state, `clock, `deadline, `stream, `streamWaiting, `past, `writeOffset, `writeVectors, `current, `supply
      modifies transport
      ensures Valid() && Awaits(interest) && (state == Streaming || state == Closing)
      ensures transport.incoming <= old(transport.incoming)
      ensures Payloads(old(past)) <= Payloads(past)
    {
      var attached := Attach();
      assert Output();
      if !attached {
        interest := CloseNow();
        return;
      }
      StartStreaming();
      interest := DriveStream();
    }

    /** The source is told, and may object. */
    method Attach() returns (attached: bool)
      requires JustAnnounced()
      modifies `past
      ensures Kept() && LifeIn(past) == Live("")
    {
      past := After(past, Attached);
      attached := *;
    }

    method StartStreaming()
      requires Output() && Input() && clock > 0 && requestDeadline >= 0 && writeVectors == [] && writeOffset == 0
      requires current == Chunk("") && state == Writing && stream.Some? && LifeIn(past) == Live("") && !streamWaiting
      requires dialogue.refused.None? && transport.shaken
      modifies `state, `clock, `deadline
      ensures Valid() && state == Streaming
    {
      EnterState(Streaming);
      assert Output() && Input();
      assert Deadlines();
      assert Sources();
    }

    /** No byte was accepted: the write deadline starts once and is then left alone. */
    method AwaitProgress()
      requires Valid() && state == Streaming && writeOffset < |current.text|
      modifies `streamWaiting, `clock, `deadline
      ensures Valid() && streamWaiting
      ensures deadline == if old(streamWaiting) then old(deadline) else clock + options.writeTimeout
    {
      if !streamWaiting {
        streamWaiting := true;
        ArmDeadline(options.writeTimeout);
      }
    }

    /** Bytes were accepted. */
    method RestartDeadline(budget: nat)
      requires Output() && Input() && Sources() && Promise() && Greeted()
      requires clock > 0 && requestDeadline >= 0 && state == Streaming
      modifies `streamWaiting, `clock, `deadline
      ensures Valid() && !streamWaiting && deadline == clock + budget
    {
      streamWaiting := false;
      ArmDeadline(budget);
    }

    /** One attempt at the stream's queued bytes; answers an interest when there is nothing to go on with. */
    method FlushOnce() returns (stop: Option<Interest>)
      requires Valid() && state == Streaming && writeOffset < |current.text|
      modifies `state, `clock, `deadline, `stream, `streamWaiting, `past, `writeOffset, transport
      ensures Valid() && transport.incoming <= old(transport.incoming) && (stop.Some? ==> Awaits(stop.value))
      ensures Kept()
      ensures |transport.sent| - |old(transport.sent)| == writeOffset - old(writeOffset) >= 0
      ensures stop.None? ==>
                && state == Streaming && writeOffset > old(writeOffset) && transport.incoming == old(transport.incoming)
                && unchanged(`stream, `pending, `past)
      ensures stop.Some? ==> state == Closing || (state == Streaming && writeOffset == old(writeOffset) && streamWaiting)
      ensures old(streamWaiting) && state == Streaming && writeOffset == old(writeOffset) ==> deadline == old(deadline)
    {
      var r := FlushStep();
      if r.IsTerminal() {
        var interest := CloseNow();
        return Some(interest);
      }
      if r.IsBlocked() || r.bytes == 0 {
        AwaitProgress();
        return Some(if r.WantRead? then ReadEvents else WriteEvents);
      }
      RestartDeadline(options.writeTimeout);
      return None;
    }

    /** Writes what is queued of the stream; a block arms the write deadline once and then leaves it alone. */
    method FlushStream() returns (blocked: Option<Interest>)
      requires Valid() && state == Streaming
      modifies `state, `clock, `deadline, `stream, `streamWaiting, `past, `writeOffset, transport
      ensures Valid() && transport.incoming <= old(transport.incoming) && (blocked.Some? ==> Awaits(blocked.value))
      ensures Kept()
      ensures blocked.None? ==> state == Streaming && writeOffset == |current.text| && unchanged(`stream, `past)
      ensures |transport.sent| >= |old(transport.sent)|
      ensures blocked.None? && old(streamWaiting) ==> |transport.sent| > |old(transport.sent)|
      ensures state == Streaming || state == Closing
      ensures old(streamWaiting) && state == Streaming && |transport.sent| == |old(transport.sent)| ==>
                deadline == old(deadline) && streamWaiting
    {
      while writeOffset < |Concat(writeVectors)|
        invariant Valid() && state == Streaming && transport.incoming == old(transport.incoming)
        invariant unchanged(`stream, `past)
        invariant writeOffset >= old(writeOffset)
        invariant |transport.sent| - |old(transport.sent)| == writeOffset - old(writeOffset)
        invariant writeOffset == old(writeOffset) ==> unchanged(`deadline, `streamWaiting)
        decreases |current.text| - writeOffset
      {
        blocked := FlushOnce();
        if blocked.Some? { return; }
      }
      return None;
    }

    /** A stream source: any answer with any text, but finitely many with data. */
    method Pull() returns (outcome: Pulled, text: string)
      requires stream.Some? && LifeIn(past) == Live("")
      modifies `supply, `past
      ensures LifeIn(past) == Pulling(outcome, text)
      ensures Payloads(past) == Payloads(old(past)) && Flushed(past) == Flushed(old(past)) && Chunks(past) == Chunks(old(past))
      ensures Drawn(past) == Drawn(old(past)) + if HasData(outcome, text) then [text] else []
      ensures supply <= old(supply) && (outcome.Wrote? && text != "" ==> supply < old(supply))
    {
      text := *;
      if {
        case supply > 0 => supply := supply - 1; outcome := Wrote;
        case true => outcome := Idle;
        case true => outcome := Finished;
      }
      past := After(past, PulledFrom(outcome, text));
    }

    /** Nothing is queued, and this text was drawn from the source but not queued yet. */
    ghost predicate JustDrawn(text: string)
      reads `writeVectors, `writeOffset, `past, `current, transport
    {
      Wire() && Retry() && writeVectors == [] && writeOffset == 0 && text != "" && Drawn(past) == Chunks(past) + [text]
    }

    method QueueChunk(text: string)
      requires JustDrawn(text)
      modifies `writeVectors, `current
      ensures Output() && writeVectors == [text] && current == Chunk(text)
    {
      assert Concat([text]) == text;
      writeVectors, current := [text], Chunk(text);
    }

    /** Everything queued was written: pull once more, and say whether to go on. */
    method PullRound() returns (stop: Option<Interest>)
      requires Valid() && state == Streaming && writeOffset == |current.text|
      modifies `state, `clock, `deadline, `stream, `streamWaiting, `past, `writeOffset, `writeVectors, `current, `supply
      modifies transport`incoming, transport`held, transport`readCalls, transport`last
      ensures Valid() && (state == Streaming || state == Closing) && transport.incoming <= old(transport.incoming)
      ensures stop.Some? ==> Awaits(stop.value)
      ensures Payloads(old(past)) <= Payloads(past)
      ensures stop.None? ==> state == Streaming && supply <= old(supply)
      ensures stop.None? ==> supply < old(supply) || (old(stream).Some? && stream.None?)
    {
      ChunkWritten();
      if stream.None? {
        var interest := CloseNow();
        return Some(interest);
      }
      stop := PullNext();
    }

    /** The chunk that was being written, if any, is finished. */
    method ChunkWritten()
      requires Valid() && state == Streaming && writeOffset == |current.text|
      modifies `streamWaiting, `clock, `deadline, `writeVectors, `writeOffset, `past, `current
      ensures Valid() && writeVectors == [] && writeOffset == 0
      ensures Payloads(old(past)) <= Payloads(past)
    {
      if writeVectors != [] {
        RestartDeadline(options.streamIdleTimeout);
      }
      ClearWritten();
      assert Output() && Input();
      assert Deadlines();
      assert Sources();
    }

    method PullNext() returns (stop: Option<Interest>)
      requires Valid() && state == Streaming && writeVectors == [] && writeOffset == 0 && stream.Some?
      modifies `state, `clock, `deadline, `stream, `streamWaiting, `past, `writeVectors, `current, `supply
      modifies transport`incoming, transport`held, transport`readCalls, transport`last
      ensures Valid() && (state == Streaming || state == Closing) && transport.incoming <= old(transport.incoming)
      ensures stop.Some? ==> Awaits(stop.value)
      ensures Payloads(past) == Payloads(old(past))
      ensures stop.None? ==> state == Streaming && supply <= old(supply) && (supply < old(supply) || stream.None?)
    {
      var outcome, text := Pull();
      if !HasData(outcome, text) {
        assert Output() && Input();
        if outcome.Finished? {
          var interest := CloseNow();
          return Some(interest);
        }
        return Some(Quiescent);
      }
      QueuePulled(outcome, text);
      return None;
    }

    /** Queues the data of a pull; a source that has finished is released. */
    method QueuePulled(outcome: Pulled, text: string)
      requires JustDrawn(text) && Input() && Deadlines() && Promise() && Greeted() && state == Streaming
      requires stream.Some? && LifeIn(past) == Pulling(outcome, text) && HasData(outcome, text)
      modifies `writeVectors, `current, `stream, `streamWaiting, `past
      ensures Valid() && Kept() && (stream.None? <==> outcome.Finished?)
    {
      QueueChunk(text);
      if outcome.Finished? {
        ReleaseStreamSource();
      }
      assert Output() && Input();
      assert Deadlines();
      assert Sources();
    }

    method DriveStream() returns (interest: Interest)
      requires Valid() && state == Streaming
      modifies `state, `clock, `deadline, `stream, `streamWaiting, `past, `writeOffset, `writeVectors, `current, `supply
      modifies transport
      ensures Valid() && Awaits(interest) && (state == Streaming || state == Closing) && Lawful()
      ensures transport.incoming <= old(transport.incoming)
    {
      while true
        invariant Valid() && state == Streaming
        invariant |transport.sent| >= |old(transport.sent)|
        invariant old(streamWaiting) && |transport.sent| == |old(transport.sent)| ==>
                    deadline == old(deadline) && streamWaiting
        invariant transport.incoming <= old(transport.incoming)
        invariant Payloads(old(past)) <= Payloads(past)
        decreases supply, if stream.Some? then 1 else 0
      {
        var blocked := FlushStream();
        if blocked.Some? { return blocked.value; }
        var stop := PullRound();
        if stop.Some? { return stop.value; }
      }
    }

    // ------------------------------------------------------------------ reading

    /** Bytes arrived; the first of a request start its absolute budget. */
    method Receive(data: string)
      requires Valid() && Parsing() && (state == ReadingHeaders || state == ReadingBody)
      requires data != "" && |data| <= |readBuffer.storage| - readBuffer.writeCursor
      modifies `dialogue, `sawAnyBytes, `started, `clock, `requestDeadline, `deadline, readBuffer
      ensures Valid() && Parsing() && sawAnyBytes && dialogue == old(dialogue.(received := dialogue.received + data))
      ensures Heard() && Pending() && (old(sawAnyBytes) ==> requestDeadline == old(requestDeadline))
    {
      Keep(data);
      StartBudget();
    }

    /** Received bytes join those that wait in the buffer. */
    method Keep(data: string)
      requires Input() && Parsing() && IsReading() && dialogue.refused.None?
      requires |data| <= |readBuffer.storage| - readBuffer.writeCursor
      modifies `dialogue, readBuffer
      ensures Input() && Parsing() && Heard() && dialogue == old(dialogue.(received := dialogue.received + data))
      ensures readBuffer.Readable() == old(readBuffer.Readable()) + data
    {
      PrefixExtends(parser.seen, readBuffer.Readable(), data);
      SplitsExtend(parse, dialogue.received, data, dialogue.dispatched, readBuffer.Readable());
      readBuffer.Commit(data);
      dialogue := dialogue.(received := dialogue.received + data);
    }

    /** The first byte starts the absolute budget, which caps the header timeout too; later bytes change nothing. */
    method StartBudget()
      requires clock > 0 && state != Streaming
      modifies `sawAnyBytes, `started, `clock, `requestDeadline, `deadline
      ensures sawAnyBytes && (old(sawAnyBytes) ==> unchanged(`started, `clock, `requestDeadline, `deadline))
      ensures !old(sawAnyBytes) ==>
                && old(clock) <= started <= clock && requestDeadline == started + options.requestDeadline
                && requestDeadline > 0 && deadline <= requestDeadline
    {
      if !sawAnyBytes {
        sawAnyBytes := true;
        var t := Now();
        started := t;
        requestDeadline := t + options.requestDeadline;
        ArmDeadline(options.headerTimeout);
      }
    }

    /** One read into the buffer's tail. */
    method Fetch() returns (r: TransportResult, data: string)
      requires Valid() && Parsing() && (state == ReadingHeaders || state == ReadingBody)
      modifies readBuffer, transport`incoming, transport`held, transport`readCalls, transport`last
      ensures Valid() && Parsing()
      ensures r == transport.last && (r.WantRead? ==> transport.held == 0)
      ensures r.Ok? ==> |data| == r.bytes <= |readBuffer.storage| - readBuffer.writeCursor
      ensures r.Ok? ==> transport.incoming + r.bytes == old(transport.incoming)
      ensures !r.Ok? ==> transport.incoming == old(transport.incoming)
    {
      var room := readBuffer.WritableTail(READ_CHUNK_BYTES);
      r, data := transport.Read(room);
    }

    /** One read; answers an interest when there is nothing to go on with. */
    method Fill() returns (stop: Option<Interest>)
      requires Valid() && Parsing() && (state == ReadingHeaders || state == ReadingBody)
      modifies this, readBuffer, transport`incoming, transport`held, transport`readCalls, transport`last
      ensures Valid() && Parsing() && Pending() && (state == old(state) || state == Closing)
      ensures stop.Some? ==> if state == Closing then stop.value == Done else HasBlocked(stop.value)
      ensures stop.None? ==> state == old(state) && sawAnyBytes
      ensures transport.incoming + (if stop.None? then 1 else 0) <= old(transport.incoming)
      ensures unchanged(`past) && Heard()
    {
      var r, data := Fetch();
      if r.IsBlocked() { return Some(Wanted(r)); }
      stop := TakeIn(r, data);
    }

    /** What a read brought: bytes join the buffer, an end closes. */
    method TakeIn(r: TransportResult, data: string) returns (stop: Option<Interest>)
      requires Valid() && Parsing() && (state == ReadingHeaders || state == ReadingBody) && !r.IsBlocked()
      requires r.Ok? ==> |data| == r.bytes <= |readBuffer.storage| - readBuffer.writeCursor
      modifies `state, `clock, `deadline, `stream, `streamWaiting, `past, `dialogue, `sawAnyBytes, `started, `requestDeadline
      modifies readBuffer, transport`incoming, transport`held, transport`readCalls, transport`last
      ensures Valid() && Parsing() && Pending() && transport.incoming <= old(transport.incoming) && unchanged(`past) && Heard()
      ensures stop.Some? ==> state == Closing && stop.value == Done
      ensures stop.None? ==> state == old(state) && sawAnyBytes && r.Ok? && r.bytes > 0
    {
      if r.IsTerminal() || r.bytes == 0 {
        stop := Shut();
      } else {
        Receive(data);
        stop := None;
      }
    }

    /** Parses what the buffer holds, wherever it lies now. */
    method ParseBuffered() returns (outcome: Outcome)
      requires Parsing() && IsReading()
      modifies parser
      ensures Parsing() && outcome == parse(readBuffer.Readable()) && (outcome.Whole? ==> parser.seen == "")
    {
      outcome := OneShots.ParseThrough(parser, readBuffer.ReadPointer(), readBuffer.Readable(), parse);
    }

    method DriveReadBody() returns (interest: Interest)
      requires Valid() && Parsing() && state == ReadingBody
      modifies this, readBuffer, parser, transport
      ensures Valid() && Parsing() && Awaits(interest) && Grew() && Pending()
      ensures transport.incoming <= old(transport.incoming)
      ensures dialogue.answered <= old(dialogue.answered) + 1 && state != Handshaking
      ensures state == ReadingBody ==> dialogue.answered == old(dialogue.answered) && HasBlocked(interest)
      ensures state == ReadingHeaders ==> dialogue.answered == old(dialogue.answered) + 1
      ensures state == ReadingHeaders ==> interest == ReadEvents && transport.last.Ok?
    {
      while true
        invariant Valid() && Parsing() && Pending() && state == ReadingBody && transport.incoming <= old(transport.incoming)
        invariant unchanged(`past) && Heard()
        decreases transport.incoming
      {
        var outcome := ParseBuffered();
        if !outcome.Partial? {
          interest := Respond(outcome);
          return;
        }
        var stop := Fill();
        if stop.Some? { return stop.value; }
      }
    }

    /** Answers a whole or refused request and starts writing. */
    method Respond(outcome: Outcome) returns (interest: Interest)
      requires Valid() && Parsing() && (state == ReadingHeaders || state == ReadingBody)
      requires outcome == parse(readBuffer.Readable()) && !outcome.Partial? && (outcome.Whole? ==> parser.seen == "")
      modifies this, readBuffer, parser, transport
      ensures Valid() && Parsing() && Awaits(interest) && transport.incoming <= old(transport.incoming)
      ensures Payloads(old(past)) <= Payloads(past)
      ensures dialogue == match outcome
                          case Whole(request, _) =>
                            old(dialogue.(dispatched := dialogue.dispatched + [request], answered := dialogue.answered + 1))
                          case Refused(error) => old(dialogue.(refused := Some(error), answered := dialogue.answered + 1))
      ensures state != Handshaking && state != ReadingBody
      ensures state == ReadingHeaders ==> interest == ReadEvents && transport.last.Ok?
    {
      if outcome.Whole? {
        AnswerRequest(outcome.request, outcome.consumed);
      } else {
        SerializeError(Some(outcome.error));
      }
      interest := DriveWrite();
    }

    /** Parses what is there. Something to go on with is a request that is whole, refused, or waits only for its body. */
    method Examine() returns (outcome: Option<Outcome>)
      requires Valid() && Parsing() && state == ReadingHeaders
      modifies parser, `state, `clock, `deadline
      ensures Valid() && Parsing()
      ensures outcome.None? ==> state == ReadingHeaders
      ensures outcome.Some? ==>
                && sawAnyBytes && outcome.value == parse(readBuffer.Readable()) && (outcome.value.Whole? ==> parser.seen == "")
                && state == if outcome.value.Partial? then ReadingBody else ReadingHeaders
    {
      if readBuffer.Readable() != "" {
        var parsed := ParseBuffered();
        if !parsed.Partial? { return Some(parsed); }
        if parsed.headComplete {
          EnterState(ReadingBody);
          return Some(parsed);
        }
      }
      return None;
    }

    /** Reads until there is something to go on with, or nothing more can be read. */
    method AwaitRequest() returns (stop: Option<Interest>, outcome: Outcome)
      requires Valid() && Parsing() && state == ReadingHeaders
      modifies this, readBuffer, parser, transport`incoming, transport`held, transport`readCalls, transport`last
      ensures Valid() && Parsing() && Pending() && transport.incoming <= old(transport.incoming)
      ensures state == ReadingHeaders || state == ReadingBody || state == Closing
      ensures stop.Some? ==> if state == Closing then stop.value == Done else HasBlocked(stop.value)
      ensures stop.None? ==> sawAnyBytes && outcome == parse(readBuffer.Readable()) && (outcome.Whole? ==> parser.seen == "")
      ensures stop.None? ==> state == if outcome.Partial? then ReadingBody else ReadingHeaders
      ensures unchanged(`past) && Heard()
    {
      outcome := Partial(false);
      while true
        invariant Valid() && Parsing() && Pending() && state == ReadingHeaders && transport.incoming <= old(transport.incoming)
        invariant unchanged(`past) && Heard()
        decreases transport.incoming
      {
        var found := Examine();
        if found.Some? { return None, found.value; }
        stop := Fill();
        if stop.Some? { return; }
      }
    }

    /** One request: wait for it, read its body, answer it. */
    method OnePass() returns (stop: Option<Interest>)
      requires Valid() && Parsing() && state == ReadingHeaders
      modifies this, readBuffer, parser, transport
      ensures Valid() && Parsing() && Grew() && Pending()
      ensures dialogue.answered <= old(dialogue.answered) + 1 && state != Handshaking
      ensures stop.Some? ==> Awaits(stop.value)
      ensures stop.Some? && IsReading() ==> dialogue.answered == old(dialogue.answered) && HasBlocked(stop.value)
      ensures stop.None? ==> state == ReadingHeaders && dialogue.answered == old(dialogue.answered) + 1 && transport.last.Ok?
    {
      var outcome;
      stop, outcome := AwaitRequest();
      if stop.Some? { return; }
      var interest;
      if state == ReadingBody {
        interest := DriveReadBody();
      } else {
        interest := Respond(outcome);
      }
      return if state != ReadingHeaders then Some(interest) else None;
    }

    /** At most eight requests; a deep pipeline must not keep the reactor to itself. */
    method DriveReadHeaders() returns (interest: Interest)
      requires Valid() && Parsing() && state == ReadingHeaders
      modifies this, readBuffer, parser, transport
      ensures Valid() && Parsing() && Awaits(interest) && Grew() && Pending()
      ensures dialogue.answered <= old(dialogue.answered) + MAX_PIPELINED_REQUESTS_PER_STEP
      ensures state != Handshaking
      ensures IsReading() && interest == ReadEvents ==>
                if dialogue.answered == old(dialogue.answered) + MAX_PIPELINED_REQUESTS_PER_STEP
                then readBuffer.Readable() == "" && transport.last.Ok?
                else Blocked()
    {
      for pass := 0 to MAX_PIPELINED_REQUESTS_PER_STEP
        invariant Valid() && Parsing() && state == ReadingHeaders && Grew() && Pending()
        invariant dialogue.answered == old(dialogue.answered) + pass
        invariant pass > 0 ==> transport.last.Ok?
      {
        var stop := OnePass();
        if stop.Some? { return stop.value; }
      }
      return if readBuffer.Readable() != "" then ReadWriteEvents else ReadEvents;
    }

    // -------------------------------------------------------------- entry points

    /** The handshake; its success enters `ReadingHeaders`. */
    method Shake() returns (r: TransportResult)
      requires Valid() && Parsing() && state == Handshaking
      modifies `state, `clock, `deadline, transport`last, transport`shaken
      ensures Valid() && Parsing() && r == transport.last && transport.shaken == r.Ok?
      ensures if r.Ok? then state == ReadingHeaders && deadline == Capped(clock + Budget(ReadingHeaders)) else unchanged(this)
    {
      r := transport.Handshake();
      if r.Ok? {
        EnterState(ReadingHeaders);
      }
    }

    /** Only a successful handshake leaves `Handshaking`, and it does. */
    method DriveHandshake() returns (interest: Interest)
      requires Valid() && Parsing() && state == Handshaking
      modifies this, readBuffer, parser, transport
      ensures Valid() && Parsing() && Awaits(interest) && Lawful()
      ensures dialogue.answered <= old(dialogue.answered) + MAX_PIPELINED_REQUESTS_PER_STEP
      ensures state == Handshaking ==> unchanged(this) && interest == Wanted(transport.last) && !transport.last.Ok?
      ensures WaitsFor(interest)
    {
      var r := Shake();
      match r {
        case Ok(_) => interest := DriveReadHeaders();
        case WantRead => return ReadEvents;
        case WantWrite => return WriteEvents;
        case Closed => return Done;
        case Error => return Done;
      }
    }

    /** Buffered bytes of the next request need no new read readiness. */
    method ResumeBody() returns (interest: Interest)
      requires Valid() && Parsing() && state == ReadingBody
      modifies this, readBuffer, parser, transport
      ensures Valid() && Parsing() && Awaits(interest) && Lawful()
      ensures dialogue.answered <= old(dialogue.answered) + MAX_PIPELINED_REQUESTS_PER_STEP + 1
      ensures WaitsFor(interest)
    {
      interest := DriveReadBody();
      if state == ReadingHeaders && readBuffer.Readable() != "" {
        interest := DriveReadHeaders();
      }
    }

    method ResumeWrite() returns (interest: Interest)
      requires Valid() && Parsing() && state == Writing
      modifies this, readBuffer, parser, transport
      ensures Valid() && Parsing() && Awaits(interest) && Lawful()
      ensures dialogue.answered <= old(dialogue.answered) + MAX_PIPELINED_REQUESTS_PER_STEP
      ensures WaitsFor(interest)
    {
      interest := DriveWrite();
      if state == ReadingHeaders {
        interest := DriveReadHeaders();
      }
    }

    /** An epoll event. */
    method Step(terminal: bool) returns (interest: Interest)
      requires Valid() && Parsing()
      modifies this, readBuffer, parser, transport
      ensures Valid() && Parsing() && (if terminal then interest == Done && unchanged(this) else Awaits(interest))
      ensures Lawful()
      ensures dialogue.answered <= old(dialogue.answered) + MAX_PIPELINED_REQUESTS_PER_STEP + 1
      ensures WaitsFor(interest)
    {
      if terminal { return Done; }
      match state {
        case Streaming => interest := StepStream();
        case Closing => interest := DriveClose();
        case _ => interest := StepExchange();
      }
    }

    /** The event concerns a stream. */
    method StepStream() returns (interest: Interest)
      requires Valid() && Parsing() && state == Streaming
      modifies this, transport
      ensures Valid() && Parsing() && Awaits(interest) && Lawful() && unchanged(`dialogue) && !IsReading()
    {
      interest := DriveStream();
    }

    /** The event concerns a request or its answer. */
    method StepExchange() returns (interest: Interest)
      requires Valid() && Parsing() && state != Streaming && state != Closing
      modifies this, readBuffer, parser, transport
      ensures Valid() && Parsing() && Awaits(interest) && Lawful()
      ensures dialogue.answered <= old(dialogue.answered) + MAX_PIPELINED_REQUESTS_PER_STEP + 1
      ensures WaitsFor(interest)
    {
      match state {
        case Handshaking => interest := DriveHandshake();
        case ReadingHeaders => interest := DriveReadHeaders();
        case ReadingBody => interest := ResumeBody();
        case Writing => interest := ResumeWrite();
      }
    }

    method OnStreamNotified() returns (interest: Interest)
      requires Valid() && Parsing()
      modifies this, transport
      ensures Valid() && Parsing() && Lawful() && unchanged(`dialogue)
      ensures if old(state) == Streaming then Awaits(interest) else unchanged(this) && unchanged(transport)
    {
      if state != Streaming {
        return if state == Closing then Done else ReadEvents;
      }
      interest := StepStream();
    }

    /** Closing in any state. */
    method Abandon() returns (interest: Interest)
      requires Valid() && Parsing()
      modifies this, transport`incoming, transport`held, transport`readCalls, transport`last
      ensures Valid() && Parsing() && Lawful() && unchanged(`dialogue) && state == Closing && interest == Done
    {
      interest := CloseNow();
    }

    /** The peer took too long over a request. */
    method TimeOut() returns (interest: Interest)
      requires Valid() && Parsing() && (state == ReadingHeaders || state == ReadingBody)
      modifies this, readBuffer, parser, transport
      ensures Valid() && Parsing() && Awaits(interest) && Lawful() && !IsReading()
      ensures dialogue == old(dialogue.(answered := dialogue.answered + 1))
    {
      SerializeError(None);
      interest := DriveWrite();
    }

    /** A timeout answers 408 while a request is being read, and otherwise closes. */
    method OnDeadlineExpired() returns (interest: Interest)
      requires Valid() && Parsing()
      modifies this, readBuffer, parser, transport
      ensures Valid() && Parsing() && Awaits(interest) && Lawful()
      ensures if old(IsReading() && sawAnyBytes) && old(state) != Handshaking
              then dialogue == old(dialogue.(answered := dialogue.answered + 1)) && !IsReading()
              else dialogue == old(dialogue) && state == Closing && interest == Done
    {
      if (state == ReadingHeaders || state == ReadingBody) && sawAnyBytes {
        interest := TimeOut();
      } else {
        interest := Abandon();
      }
    }

    /** Destruction releases whatever source is still held. */
    method Destroy()
      requires Valid()
      modifies `stream, `streamWaiting, `past
      ensures Output() && Input() && Deadlines() && stream.None? && LifeIn(past) == NoSource && Kept()
    {
      ReleaseStreamSource();
    }
  }

  lemma ConcatPair(a: string, b: string)
    ensures Concat([a]) == a && Concat([a, b]) == a + b && a + "" == a
  {
    assert [a, b][1..] == [b];
    assert Concat([b]) == b;
  }

  lemma PrefixExtends(a: string, b: string, more: string)
    requires Prefix(a, b)
    ensures Prefix(a, b + more)
  {
    assert (b + more)[..|a|] == b[..|a|];
  }

  lemma PrefixGrows(before: string, all: string, at: nat, n: nat)
    requires at + n <= |all|
    ensures (before + all[..at]) + all[at..][..n] == before + all[..at + n]
  {
    assert all[..at + n] == all[..at] + all[at..][..n];
  }

  // ------------------------------------------------------------------ whole runs

  datatype Event = Ready(terminal: bool) | Notified | Expired

  /** Everything a connection has ever done, in any run: exact bytes, identical retries, the stream's own requests in
      order and nothing refused but what follows them, and every source attached behind the response that announces it
      and pulled only while attached. */
  ghost predicate Honest(c: Connection)
    reads c, c.transport, c.readBuffer
  {
    && c.writeOffset <= |c.current.text|
    && c.transport.sent == Flushed(c.past) + c.current.text[..c.writeOffset]
    && c.transport.badRetries == 0
    && c.readBuffer.Valid() && Splits(c.parse, c.dialogue.received, c.dialogue.dispatched, c.readBuffer.Readable())
    && (c.dialogue.refused.Some? ==> c.parse(c.readBuffer.Readable()) == Refused(c.dialogue.refused.value))
    && LifeIn(c.past) != Misused
    && Drawn(c.past) == Chunks(c.past) + ChunkOf(c.current)
  }

  method React(c: Connection, event: Event) returns (interest: Interest)
    requires c.Valid() && c.Parsing()
    modifies c, c.transport, c.readBuffer, c.parser
    ensures c.Valid() && c.Parsing() && c.Lawful()
  {
    match event {
      case Ready(terminal) => interest := c.Step(terminal);
      case Notified => interest := c.OnStreamNotified();
      case Expired => interest := c.OnDeadlineExpired();
    }
  }

  /** Any sequence of events, until the connection says it is done. However many there are: history only grows and ends
      with a refusal, an unanswered request and a stalled stream keep their deadlines, and closing is final. */
  method Serve(c: Connection, events: seq<Event>)
    requires c.Valid() && c.Parsing()
    modifies c, c.transport, c.readBuffer, c.parser
    ensures c.Valid() && c.Parsing() && c.Lawful()
  {
    for i := 0 to |events|
      invariant c.Valid() && c.Parsing() && c.Lawful()
    {
      var interest := React(c, events[i]);
      if interest == Done { break; }
    }
  }

  /** A whole life: any events, then destruction. The answer to a request is armed for no later than the budget that runs
      from its first byte, and every source has been released. */
  method AnyRun(c: Connection, events: seq<Event>)
    requires c.Valid() && c.Parsing()
    modifies c, c.transport, c.readBuffer, c.parser
    ensures Honest(c) && Orderly(Deeds(c.past)) && CountTaken(c.past) == CountDetached(c.past)
    ensures c.Grew() && c.Pending() && c.Ends()
    ensures c.IsReading() && c.sawAnyBytes ==> c.deadline <= c.requestDeadline == c.started + c.options.requestDeadline
    ensures old(c.state == Streaming && c.streamWaiting) && c.state == Streaming ==>
              |c.transport.sent| > |old(c.transport.sent)| || c.deadline == old(c.deadline)
  {
    Serve(c, events);
    c.Destroy();
    LawfulLifeIsOrderly(c.past);
    DetachedOnce(c.past);
  }
}
