/**
 A turn of the connection engine that ends with a request held inside OpenSSL
 (src/connection.cpp, `drive_read_headers`; src/tls_transport.cpp, `read`): the
 eighth answer empties the buffer, and the engine waits for readability although
 the next request was decrypted already.
 */
module HeldBytes {
  import opened Text
  import opened Messages
  import opened Fields
  import opened RequestParsing
  import opened RequestPaths
  import opened FieldLines
  import opened Pipeline
  import opened OneShots
  import opened Transports
  import opened Connections
  import ResponseRoundTrip

  /** One read fills an empty buffer with exactly as many requests as a turn answers, each of which keeps the connection. */
  ghost predicate FilledTurn(parse: Parser, before: Inbound, data: string, requests: seq<Request>, after: Inbound) {
    && MayRead(true, READ_CHUNK_BYTES, before, TransportResult.Ok(|data|), after)
    && |requests| == MAX_PIPELINED_REQUESTS_PER_STEP && (forall i :: 0 <= i < |requests| ==> requests[i].keepAlive)
    && Splits(parse, data, requests, "")
  }

  // ------------------------------------------------------------ a request that keeps

  const KEEP := ("Connection", "keep-alive")

  /** A request for a path that asks to keep the connection. */
  function KeepingRequest(path: string): string { LineFor("GET", path) + (CRLF + (Lines([KEEP]) + CRLF)) }

  lemma KeepingLength(path: string)
    ensures |KeepingRequest(path)| == |path| + 41
  {
    assert Lines([KEEP]) == FieldLine(KEEP) + Lines([]);
  }

  lemma LineStarts(line: string, rest: string)
    requires line != "" && NoReturns(line)
    ensures Prologue(line + (CRLF + rest)) == 0
  {
    assert (line + (CRLF + rest))[0] == line[0];
    NoPrologue(line + (CRLF + rest));
  }

  lemma FramedAt(s: string, start: nat, lineEnd: nat, terminator: nat, limits: Limits)
    requires Prologue(s) == start <= |s| && FindText(s, CRLF, start) == lineEnd && FindText(s, TERMINATOR, start) == terminator
    requires lineEnd <= terminator < terminator + 4 <= |s|
    requires lineEnd - start <= limits.maxRequestLine && terminator + 4 - start <= limits.maxHeaderBlock
    ensures FrameHead(s, limits) == Result.Ok(Framing(start, lineEnd, terminator + 4))
  {}

  lemma LineEnds(line: string, rest: string)
    requires NoReturns(line)
    ensures FindText(line + (CRLF + rest), CRLF) == |line|
  {
    var s := line + (CRLF + rest);
    forall i | 0 <= i < |line| ensures !HasAt(s, CRLF, i) {
      assert s[i] == line[i];
      NoMatchAt(s, CRLF, i);
    }
    assert s[|line|..|line| + 2] == CRLF;
    assert HasAt(s, CRLF, |line|);
  }

  lemma KeepingPieces(path: string)
    requires Requestable(path)
    ensures NoReturns(LineFor("GET", path)) && LineFor("GET", path) != ""
    ensures var rest := Lines([KEEP]) + CRLF; rest != "" && rest[0] != CR && FindText(rest, TERMINATOR) == |rest| - 4
  {
    PathUnbroken(path);
    LineSpaces("GET", path, "");
    assert LineFor("GET", path) + "" == LineFor("GET", path);
    KeepTrims();
    OnlyEndTerminates([KEEP]);
  }

  lemma KeepingLineEnds(path: string)
    requires Requestable(path)
    ensures Prologue(KeepingRequest(path)) == 0 && FindText(KeepingRequest(path), CRLF) == |LineFor("GET", path)|
  {
    KeepingPieces(path);
    LineStarts(LineFor("GET", path), Lines([KEEP]) + CRLF);
    LineEnds(LineFor("GET", path), Lines([KEEP]) + CRLF);
  }

  lemma KeepingTerminates(path: string)
    requires Requestable(path)
    ensures FindText(KeepingRequest(path), TERMINATOR) == |KeepingRequest(path)| - 4
  {
    KeepingPieces(path);
    LineSkipped(LineFor("GET", path), Lines([KEEP]) + CRLF);
  }

  lemma KeepingFrames(path: string, limits: Limits)
    requires Requestable(path) && |KeepingRequest(path)| <= limits.maxRequestLine
    requires |KeepingRequest(path)| <= limits.maxHeaderBlock
    ensures var s := KeepingRequest(path);
            |s| >= |LineFor("GET", path)| + 4 && FrameHead(s, limits) == Result.Ok(Framing(0, |LineFor("GET", path)|, |s|))
  {
    var (s, n) := (KeepingRequest(path), |LineFor("GET", path)|);
    KeepingLength(path);
    KeepingLineEnds(path);
    KeepingTerminates(path);
    FramedAt(s, 0, n, |s| - 4, limits);
  }

  lemma KeepingLine(path: string)
    requires Requestable(path)
    ensures var (s, n) := (KeepingRequest(path), |LineFor("GET", path)|);
            && Inside(PathSpan("GET", path), n) && Slice(s, PathSpan("GET", path)) == path
            && ParseRequestLine(s, 0, n) == Result.Ok(RequestLine(Get, PathSpan("GET", path), false))
            && SplitTarget(s, PathSpan("GET", path)) == Result.Ok(Target(InHead(PathSpan("GET", path)), Nowhere, Nowhere))
  {
    var (s, n, sp) := (KeepingRequest(path), |LineFor("GET", path)|, PathSpan("GET", path));
    PathUnbroken(path);
    LineSpaces("GET", path, CRLF + (Lines([KEEP]) + CRLF));
    assert s[sp.lo..sp.hi][0] == path[0];
    LineParses(s, 3, sp.hi, n);
    TargetParses(s, sp.lo, sp.hi);
  }

  /** The one field of such a request. */
  ghost predicate OneKeep(s: string, hs: seq<Header>) {
    |hs| == 1 && HeadersInside(hs, |s|) && Slice(s, hs[0].name) == KEEP.0 && Slice(s, hs[0].value) == KEEP.1
  }

  lemma KeepTrims()
    ensures FieldOk(KEEP) && Trimmed(KEEP.1) == KEEP.1 && ListMembers(KEEP.1, ',') == [KEEP.1]
  {
    assert forall i :: 0 <= i < |KEEP.0| ==> IsTokenCharacter(KEEP.0[i]);
    ResponseRoundTrip.TokenListsItself(KEEP.1);
  }

  lemma OneField(s: string, lo: nat, hi: nat, f: Field, room: nat) returns (hs: seq<Header>)
    requires FieldOk(f) && Trimmed(f.1) == f.1 && room > 0 && lo <= hi <= |s| && s[lo..hi] == Lines([f])
    ensures ParseFields(s, lo, hi, room) == Result.Ok(hs) && |hs| == 1 && HeadersInside(hs, |s|)
    ensures Slice(s, hs[0].name) == f.0 && Slice(s, hs[0].value) == f.1
  {
    FieldsReadBack(s, lo, hi, [f], room);
    hs := ParseFields(s, lo, hi, room).value;
    ResponseRoundTrip.TextsOf(s, hs, [f]);
  }

  lemma FieldsLie(line: string, lines: string)
    ensures var s := line + (CRLF + (lines + CRLF)); s[|line| + 2..|s| - 2] == lines
  {}

  lemma KeepingFields(path: string) returns (hs: seq<Header>)
    ensures var (s, n) := (KeepingRequest(path), |LineFor("GET", path)|);
            |s| >= n + 4 && ParseFields(s, n + 2, |s| - 2, 1) == Result.Ok(hs) && OneKeep(s, hs)
  {
    var (s, n) := (KeepingRequest(path), |LineFor("GET", path)|);
    KeepTrims();
    FieldsLie(LineFor("GET", path), Lines([KEEP]));
    hs := OneField(s, n + 2, |s| - 2, KEEP, 1);
  }

  /** A single field whose name is ten characters long measures no body and names no host. */
  lemma TenMeansNothing(s: string, hs: seq<Header>, limits: Limits)
    requires |hs| == 1 && HeadersInside(hs, |s|) && |Slice(s, hs[0].name)| == 10
    ensures ContentLength(s, hs, limits.maxBody) == Result.Ok(0)
    ensures ResolveAuthority(s, hs, Nowhere, false, limits) == Result.Ok(Nowhere)
  {
    assert LengthScan(s, hs, 1, false, None) == Result.Ok((false, None));
    assert LengthScan(s, hs, 0, false, None) == Result.Ok((false, None));
    assert hs[1..] == [] && !Names(s, hs[0], "Host");
    assert Hosts(s, hs) == [];
  }

  lemma TokenKeeps(s: string, hs: seq<Header>, token: string)
    requires |hs| == 1 && HeadersInside(hs, |s|) && Names(s, hs[0], "Connection") && ListMembers(Slice(s, hs[0].value), ',') == [token]
    requires EqualsIgnoreCase(token, "keep-alive") && |token| != 5
    ensures ResolveKeepAlive(s, hs, false)
  {
    assert ListMembers(Slice(s, hs[0].value), ',')[0] == token;
  }

  lemma KeepMeans(s: string, hs: seq<Header>, limits: Limits)
    requires OneKeep(s, hs)
    ensures ContentLength(s, hs, limits.maxBody) == Result.Ok(0)
    ensures ResolveAuthority(s, hs, Nowhere, false, limits) == Result.Ok(Nowhere)
    ensures ResolveKeepAlive(s, hs, false)
  {
    KeepTrims();
    TenMeansNothing(s, hs, limits);
    TokenKeeps(s, hs, KEEP.1);
  }

  /** Limits that leave room for that request. */
  function KeepingLimits(path: string): Limits {
    var n := |KeepingRequest(path)|;
    Limits(n, n, 1, n, 0, _ => false)
  }

  function KeepingParts(path: string, hs: seq<Header>): Parts {
    var sp := PathSpan("GET", path);
    Parts(RequestLine(Get, sp, false), hs, 0, Target(InHead(sp), Nowhere, Nowhere))
  }

  lemma CutIs(s: string, n: nat, line: RequestLine, hs: seq<Header>, target: Target, limits: Limits)
    requires n + 4 <= |s| && Inside(line.target, |s|) && line.target.hi - line.target.lo <= limits.maxTarget
    requires limits.maxHeaderCount == 1 && ParseRequestLine(s, 0, n) == Result.Ok(line)
    requires ParseFields(s, n + 2, |s| - 2, 1) == Result.Ok(hs) && HeadersInside(hs, |s|)
    requires ContentLength(s, hs, limits.maxBody) == Result.Ok(0) && SplitTarget(s, line.target) == Result.Ok(target)
    ensures CutHead(s, 0, n, limits.maxTarget, limits.maxHeaderCount, limits.maxBody) == Result.Ok(Parts(line, hs, 0, target))
  {}

  lemma CheckIs(s: string, p: Parts, limits: Limits) returns (h: ParsedHead)
    requires PartsInside(p, |s|) && p.length == 0 && p.target.path.InHead? && IsCanonicalPath(Slice(s, p.target.path.span))
    requires p.target.query == Nowhere && p.target.authority == Nowhere
    requires ResolveAuthority(s, p.headers, Nowhere, p.line.isVersion11, limits) == Result.Ok(Nowhere)
    ensures CheckHead(s, p, limits) == Result.Ok(h) && h.bodyOffset == |s| && h.bodyBytes == 0
    ensures h.keepAlive == ResolveKeepAlive(s, p.headers, p.line.isVersion11)
  {
    assert QueryParameters(s, Nowhere) == Result.Ok(NO_QUERY);
    h := CheckHead(s, p, limits).value;
  }

  lemma KeepingBlock(path: string) returns (h: ParsedHead)
    requires Requestable(path)
    ensures var (s, n) := (KeepingRequest(path), |LineFor("GET", path)|);
            |s| >= n + 4 && ParseBlock(s, 0, n, KeepingLimits(path)) == Result.Ok(h)
    ensures h.keepAlive && h.bodyOffset == |KeepingRequest(path)| && h.bodyBytes == 0
  {
    var (s, n, limits) := (KeepingRequest(path), |LineFor("GET", path)|, KeepingLimits(path));
    KeepingLine(path);
    var hs := KeepingFields(path);
    KeepMeans(s, hs, limits);
    KeepingLength(path);
    var parts := KeepingParts(path, hs);
    CutIs(s, n, parts.line, hs, parts.target, limits);
    h := CheckIs(s, parts, limits);
    BlockOfParts(s, n, parts, h, limits);
  }

  lemma KeepingHead(path: string) returns (h: ParsedHead)
    requires Requestable(path)
    ensures ParseHead(KeepingRequest(path), KeepingLimits(path)) == Result.Ok(h)
    ensures h.keepAlive && h.bodyOffset == |KeepingRequest(path)| && h.bodyBytes == 0
  {
    h := KeepingBlock(path);
    KeepingFrames(path, KeepingLimits(path));
    assert KeepingRequest(path)[..|KeepingRequest(path)|] == KeepingRequest(path);
  }

  /** It is accepted as it stands, and keeps the connection. */
  lemma KeepingIsAccepted(path: string)
    requires Requestable(path)
    ensures var r := OneShotOutcome(KeepingRequest(path), KeepingLimits(path));
            r.Whole? && r.request.keepAlive && r.consumed == |KeepingRequest(path)|
  {
    var h := KeepingHead(path);
    RequestFollowsHead(KeepingRequest(path), KeepingLimits(path));
  }

  // ------------------------------------------------------------------- such a turn

  function Repeated(one: string, times: nat): string { if times == 0 then "" else one + Repeated(one, times - 1) }

  lemma {:induction false} RepeatedLength(one: string, times: nat)
    ensures |Repeated(one, times)| == times * |one|
  {
    if times > 0 { RepeatedLength(one, times - 1); }
  }

  function Copies(request: Request, times: nat): seq<Request> { seq(times, _ => request) }

  lemma {:induction false} RepeatedSplits(parse: Parser, one: string, request: Request, times: nat)
    requires Stable(parse) && parse(one) == Whole(request, |one|)
    ensures Splits(parse, Repeated(one, times), Copies(request, times), "")
  {
    if times > 0 {
      var rest := Repeated(one, times - 1);
      RepeatedSplits(parse, one, request, times - 1);
      assert parse(one + rest) == parse(one);
      assert (one + rest)[|one|..] == rest && Copies(request, times)[1..] == Copies(request, times - 1);
    }
  }

  /** A path that makes the request an eighth of a read long. */
  const PATH := "/" + seq(470, _ => 'a')

  lemma PathIsRequestable()
    ensures Requestable(PATH) && |KeepingRequest(PATH)| == 512
  {
    var segment := PATH[1..];
    assert segment == seq(470, _ => 'a');
    assert Find(segment, '/') == |segment|;
    SplitOnce(segment, '/');
    KeepingLength(PATH);
  }

  /** Nine such requests arrive in one record. The first read takes eight of them, the turn ends with an empty buffer when
      they are answered, and the ninth is held where no readiness event shows it: a whole request, already decrypted. */
  lemma TurnEndsWithRequestHeld() returns (requests: seq<Request>)
    ensures var (one, parse) := (KeepingRequest(PATH), OneShot(KeepingLimits(PATH)));
            && FilledTurn(parse, Inbound((MAX_PIPELINED_REQUESTS_PER_STEP + 1) * |one|, 0),
                          Repeated(one, MAX_PIPELINED_REQUESTS_PER_STEP), requests, Inbound(|one|, |one|))
            && parse(one).Whole? && |one| > 0
  {
    var (one, parse) := (KeepingRequest(PATH), OneShot(KeepingLimits(PATH)));
    PathIsRequestable();
    KeepingIsAccepted(PATH);
    OneShotIsStable(KeepingLimits(PATH));
    requests := Copies(parse(one).request, MAX_PIPELINED_REQUESTS_PER_STEP);
    RepeatedLength(one, MAX_PIPELINED_REQUESTS_PER_STEP);
    RepeatedSplits(parse, one, parse(one).request, MAX_PIPELINED_REQUESTS_PER_STEP);
  }
}
