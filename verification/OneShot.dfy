/**
 The request parser as the connection engine uses it: any sequence of calls of the
 incremental parser on a growing buffer answers what one parse of the whole text
 would, and a request is read through views into that buffer.
 */
module OneShots {
  import opened Text
  import opened RequestParsing
  import opened RequestViews
  import opened Pipeline

  function OneShotOutcome(bytes: string, limits: Limits): Outcome {
    match ParseRequest(bytes, limits)
    case Ok(p) => Whole(p.request, p.consumed)
    case Err(NeedsMoreData) => Partial(ParseHead(bytes, limits).Ok?)
    case Err(e) => Refused(e)
  }

  /** Parsing of the whole text at once. */
  function OneShot(limits: Limits): Parser {
    (bytes: string) => OneShotOutcome(bytes, limits)
  }

  ghost predicate Follows(parse: Parser, limits: Limits) {
    forall bytes {:trigger OneShotOutcome(bytes, limits)} :: parse(bytes) == OneShotOutcome(bytes, limits)
  }

  lemma OneShotIsStable(limits: Limits)
    ensures Stable(OneShot(limits)) && Follows(OneShot(limits), limits)
  {
    var parse := OneShot(limits);
    forall s, more | parse(s).Whole?
      ensures parse(s).consumed <= |s| && parse(s + more) == parse(s)
    {
      OneShotStep(limits, s, more);
    }
  }

  lemma OneShotStep(limits: Limits, s: string, more: string)
    requires OneShotOutcome(s, limits).Whole?
    ensures OneShotOutcome(s, limits).consumed <= |s| && OneShotOutcome(s + more, limits) == OneShotOutcome(s, limits)
  {
    SuccessIsStable(s, more, limits);
  }

  /** One call of the incremental parser, on the bytes that lie at `base` now. */
  method ParseThrough(parser: RequestParser, base: int, bytes: string, ghost parse: Parser) returns (outcome: Outcome)
    requires parser.Valid() && Placed(base) && Prefix(parser.seen, bytes) && Follows(parse, parser.limits)
    modifies parser
    ensures parser.Valid() && outcome == parse(bytes)
    ensures parser.seen == if outcome.Whole? then "" else bytes
  {
    assert parse(bytes) == OneShotOutcome(bytes, parser.limits);
    var r := parser.Parse(base, bytes);
    match r {
      case Ok(v) =>
        DenotedIsRead(base, bytes, v, ParseRequest(bytes, parser.limits).value);
        outcome := Whole(RequestBehind(base, bytes, v), v.consumed);
      case Err(NeedsMoreData) => outcome := Partial(parser.headComplete);
      case Err(e) => outcome := Refused(e);
    }
  }
}
