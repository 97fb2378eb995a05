/**
 The requests of a byte stream, as repeated one-shot parsing finds them. The laws
 need only that a parser's success is not undone by later bytes; the request
 parser has that property, and the connection engine is proved to dispatch
 exactly these requests, however its reads cut the stream.
 */
module Pipeline {
  import opened Messages

  /** What a buffer holds: a whole request, part of one, or something refused. */
  datatype Outcome =
    | Whole(request: Request, consumed: nat)
    | Partial(headComplete: bool)
    | Refused(error: ParseError)

  type Parser = string -> Outcome

  ghost predicate Stable(parse: Parser) {
    forall s, more {:trigger parse(s + more)} :: parse(s).Whole? ==> parse(s).consumed <= |s| && parse(s + more) == parse(s)
  }

  /** The stream starts with these requests, one after the other, and `rest` follows them. */
  ghost predicate Splits(parse: Parser, stream: string, requests: seq<Request>, rest: string)
    decreases |requests|
  {
    if requests == [] then rest == stream
    else
      && parse(stream).Whole? && parse(stream).consumed <= |stream|
      && parse(stream).request == requests[0]
      && Splits(parse, stream[parse(stream).consumed..], requests[1..], rest)
  }

  /** Bytes that arrive later only lengthen the rest. */
  lemma {:induction false} SplitsExtend(parse: Parser, stream: string, more: string, requests: seq<Request>, rest: string)
    requires Stable(parse) && Splits(parse, stream, requests, rest)
    ensures Splits(parse, stream + more, requests, rest + more)
    decreases |requests|
  {
    if requests != [] {
      var n := parse(stream).consumed;
      assert parse(stream + more) == parse(stream);
      SplitsExtend(parse, stream[n..], more, requests[1..], rest);
      assert (stream + more)[n..] == stream[n..] + more;
    }
  }

  /** One more request off the rest. */
  lemma {:induction false} SplitsNext(parse: Parser, stream: string, requests: seq<Request>, rest: string)
    requires Splits(parse, stream, requests, rest) && parse(rest).Whole? && parse(rest).consumed <= |rest|
    ensures Splits(parse, stream, requests + [parse(rest).request], rest[parse(rest).consumed..])
    decreases |requests|
  {
    var request := parse(rest).request;
    if requests == [] {
      assert requests + [request] == [request];
      assert [request][1..] == [];
    } else {
      SplitsNext(parse, stream[parse(stream).consumed..], requests[1..], rest);
      assert (requests + [request])[1..] == requests[1..] + [request];
    }
  }

  /** Chunking independence: any two ways of getting requests out of one stream agree as far as both go, and what one
      has beyond the other is found in the other's rest. */
  lemma {:induction false} SplitsAgree(parse: Parser, stream: string, a: seq<Request>, restA: string, b: seq<Request>, restB: string)
    requires Splits(parse, stream, a, restA) && Splits(parse, stream, b, restB) && |a| <= |b|
    ensures a == b[..|a|] && Splits(parse, restA, b[|a|..], restB)
    decreases |a|
  {
    if a == [] {
      assert b[0..] == b;
    } else {
      SplitsAgree(parse, stream[parse(stream).consumed..], a[1..], restA, b[1..], restB);
      assert b[1..][..|a| - 1] == b[1..|a|];
      assert a == [a[0]] + a[1..] && b[..|a|] == [b[0]] + b[1..|a|];
      assert b[1..][|a| - 1..] == b[|a|..];
    }
  }

  /** Nothing is lost or invented: the rest is what follows the consumed bytes. */
  lemma {:induction false} SplitsConserve(parse: Parser, stream: string, requests: seq<Request>, rest: string)
    requires Splits(parse, stream, requests, rest)
    ensures |rest| <= |stream| && rest == stream[|stream| - |rest|..]
    decreases |requests|
  {
    if requests != [] {
      SplitsConserve(parse, stream[parse(stream).consumed..], requests[1..], rest);
    } else {
      assert stream[0..] == stream;
    }
  }
}
