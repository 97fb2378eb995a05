/** What a refusal by a connection says of the whole stream, received or yet to come. */
module Finality {
  import opened Messages
  import opened RequestParsing
  import opened Pipeline
  import opened OneShots
  import opened Refusals
  import opened Connections

  /** Behind a refusal that does not reopen there is no further request, however the stream goes on. */
  lemma RefusedForGood(limits: Limits, stream: string, dispatched: seq<Request>, rest: string,
                       more: string, requests: seq<Request>, left: string)
    requires Splits(OneShot(limits), stream, dispatched, rest) && IsRefused(rest, limits) && !Reopens(rest, limits)
    requires Splits(OneShot(limits), stream + more, requests, left)
    ensures |requests| <= |dispatched| && requests == dispatched[..|requests|]
  {
    OneShotIsStable(limits);
    SplitsExtend(OneShot(limits), stream, more, dispatched, rest);
    if |requests| > |dispatched| {
      SplitsAgree(OneShot(limits), stream + more, dispatched, rest + more, requests, left);
      assert requests[|dispatched|..] != [];
      StaysRefused(rest, more, limits);
      assert false;
    }
    SplitsAgree(OneShot(limits), stream + more, requests, left, dispatched, rest + more);
  }

  /** What a connection has refused, in any run, is refused for good: it has dispatched every request that its stream, with
      whatever follows, will ever hold. The exception is a connection that answered while its line limit was just met. */
  lemma EngineRefusedForGood(c: Connection, limits: Limits, more: string, requests: seq<Request>, left: string)
    requires Honest(c) && c.parse == OneShot(limits) && c.dialogue.refused.Some?
    requires c.readBuffer.Valid() && !Reopens(c.readBuffer.Readable(), limits)
    requires Splits(OneShot(limits), c.dialogue.received + more, requests, left)
    ensures |requests| <= |c.dialogue.dispatched| && requests == c.dialogue.dispatched[..|requests|]
  {
    assert OneShotOutcome(c.readBuffer.Readable(), limits) == Refused(c.dialogue.refused.value);
    RefusedForGood(limits, c.dialogue.received, c.dialogue.dispatched, c.readBuffer.Readable(), more, requests, left);
  }
}
