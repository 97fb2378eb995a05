/** The response encoder seen from the connection: what a client reads in a head is what the connection then does. */
module WirePromise {
  import opened Text
  import opened Fields
  import opened ResponseHeads
  import opened ResponseRoundTrip
  import Connections

  /** The reply that the encoder makes of a response. */
  function ReplyOf(r: Response, o: Options, w: World, source: Option<nat>): Connections.Reply {
    Connections.Reply(source, HeadText(r, o.(keepAlive := true), w), HeadText(r, o.(keepAlive := false), w), BodyOf(r, w), IsBodiless(r))
  }

  /** The bytes that follow the head of a queued response. */
  function Tail(r: Response, w: World, suppressed: bool): string { if suppressed then "" else BodyOf(r, w) }

  /** A queued response is a head, which the first blank line ends, and its body. A client reads the head as keep-alive
      exactly when the connection's record says it promised that, and finds the length of the body announced in it (unless
      the body is suppressed). */
  lemma QueuedResponseReads(r: Response, o: Options, w: World, source: Option<nat>, keepAlive: bool, suppressed: bool, room: nat, maxBody: nat)
    returns (head: string, fields: seq<Header>)
    requires ResponseOk(r) && WorldOk(w) && |BodyOf(r, w)| < UINT64_LIMIT && |BodyOf(r, w)| <= maxBody
    requires |EmittedFields(r, o.(keepAlive := keepAlive), w)| <= room
    requires (r.streaming ==> !keepAlive) && (r.streaming || IsBodiless(r) ==> suppressed)
    ensures Connections.ResponseOf(ReplyOf(r, o, w, source), keepAlive, suppressed).text == head + Tail(r, w, suppressed)
    ensures |head| >= 4 && FindText(head + Tail(r, w, suppressed), TERMINATOR) == |head| - 4
    ensures FieldsBegin(r) <= |head| - 2 && ParseFields(head, FieldsBegin(r), |head| - 2, room) == Ok(fields)
    ensures ResolveKeepAlive(head, fields, true) <==> Connections.ResponseOf(ReplyOf(r, o, w, source), keepAlive, suppressed).keepAlive
    ensures !suppressed ==> ContentLength(head, fields, maxBody) == Ok(|Tail(r, w, suppressed)|)
  {
    head, fields := HeadRoundTrip(r, o.(keepAlive := keepAlive), w, room, maxBody);
    FindTextStable(head, Tail(r, w, suppressed), TERMINATOR, 0);
  }
}
