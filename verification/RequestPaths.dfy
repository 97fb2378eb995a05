/** Which paths a parsed request can carry (src/request.cpp, `split_target`, `path_is_canonical`). */
module RequestPaths {
  import opened Text
  import opened Messages
  import opened Fields
  import opened RequestParsing

  /** Characters of a request target that belong to its path. */
  predicate IsPathCharacter(c: char) { IsTargetCharacter(c) && c != '?' }

  predicate AllPath(s: string) { forall k :: 0 <= k < |s| ==> IsPathCharacter(s[k]) }

  /** A request can carry this path: no more than the parser demands, as `CarriedPaths` shows. */
  predicate Requestable(path: string) { IsCanonicalPath(path) && AllPath(path) }

  /** These bytes are parsed to a request with this method and path. */
  predicate Carries(bytes: string, limits: Limits, verb: Method, path: string) {
    var r := ParseRequest(bytes, limits);
    r.Ok? && r.value.request.verb == verb && r.value.request.path == path
  }

  // --------------------------------------------------------- what a parse carries

  predicate PathPlace(s: string, p: Place)
    requires PlaceInside(p, |s|)
  {
    AllPath(PlaceText(s, p))
  }

  lemma SplitPathCarries(s: string, lo: nat, hi: nat, authority: Place)
    requires lo <= hi <= |s| && PlaceInside(authority, |s|) && SplitPath(s, lo, hi, authority).Ok?
    requires forall i :: lo <= i < hi ==> IsTargetCharacter(s[i])
    ensures PathPlace(s, SplitPath(s, lo, hi, authority).value.path)
  {
    var mark := Find(s[..hi], '?', lo);
    assert forall i :: lo <= i < mark ==> s[..hi][i] == s[i];
    assert forall k :: 0 <= k < mark - lo ==> s[lo..mark][k] == s[lo + k];
  }

  lemma SplitTargetCarries(s: string, sp: Span)
    requires Inside(sp, |s|) && SplitTarget(s, sp).Ok?
    ensures PathPlace(s, SplitTarget(s, sp).value.path)
  {
    assert forall i :: sp.lo <= i < sp.hi ==> IsTargetCharacter(s[i]);
    var target := s[..sp.hi];
    if sp.lo < sp.hi && s[sp.lo] == '/' {
      SplitPathCarries(s, sp.lo, sp.hi, Nowhere);
    } else {
      var lo := FindText(target, "://", sp.lo) + 3;
      var end := FirstOf(target, '/', '?', lo);
      SplitPathCarries(s, end, sp.hi, InHead(Span(lo, end)));
    }
  }

  lemma BlockCarries(head: string, lo: nat, lineEnd: nat, limits: Limits)
    requires lo <= lineEnd && lineEnd + 4 <= |head| && ParseBlock(head, lo, lineEnd, limits).Ok?
    ensures Requestable(PlaceText(head, ParseBlock(head, lo, lineEnd, limits).value.path))
  {
    var parts := CutHead(head, lo, lineEnd, limits.maxTarget, limits.maxHeaderCount, limits.maxBody).value;
    CutCarries(head, lo, lineEnd, limits.maxTarget, limits.maxHeaderCount, limits.maxBody);
    CheckCarries(head, parts, limits);
  }

  lemma CutCarries(head: string, lo: nat, lineEnd: nat, maxTarget: nat, maxHeaderCount: nat, maxBody: nat)
    requires lo <= lineEnd && lineEnd + 4 <= |head| && CutHead(head, lo, lineEnd, maxTarget, maxHeaderCount, maxBody).Ok?
    ensures PathPlace(head, CutHead(head, lo, lineEnd, maxTarget, maxHeaderCount, maxBody).value.target.path)
  {
    var parts := CutHead(head, lo, lineEnd, maxTarget, maxHeaderCount, maxBody).value;
    assert SplitTarget(head, parts.line.target) == Ok(parts.target);
    SplitTargetCarries(head, parts.line.target);
  }

  lemma CheckCarries(head: string, parts: Parts, limits: Limits)
    requires PartsInside(parts, |head|) && CheckHead(head, parts, limits).Ok?
    ensures CheckHead(head, parts, limits).value.path == parts.target.path
    ensures IsCanonicalPath(PlaceText(head, parts.target.path))
  {}

  /** Every parsed request carries such a path. */
  lemma ParsedIsRequestable(bytes: string, limits: Limits)
    requires ParseRequest(bytes, limits).Ok?
    ensures Requestable(ParseRequest(bytes, limits).value.request.path)
  {
    RequestFollowsHead(bytes, limits);
    HeadFollowsFraming(bytes, limits);
    var f := FrameHead(bytes, limits).value;
    BlockCarries(bytes[..f.end], f.start, f.lineEnd, limits);
  }

  // ------------------------------------------------------------ a request for a path

  const NO_QUERY := Parameters("", [])

  /** A shortest request line for a path. */
  function LineFor(token: string, path: string): string {
    token + (" " + (path + (" " + "HTTP/1.0")))
  }

  function RequestFor(token: string, path: string): string { LineFor(token, path) + TERMINATOR }

  /** The limits leave room for that request. */
  predicate RoomFor(token: string, path: string, limits: Limits) {
    && |LineFor(token, path)| <= limits.maxRequestLine && |path| <= limits.maxTarget
    && |LineFor(token, path)| + 4 <= limits.maxHeaderBlock
  }

  /** Nothing in it separates the parts of a request line. */
  predicate Unbroken(s: string) { forall k :: 0 <= k < |s| ==> s[k] != ' ' && s[k] != CR }

  lemma TokenUnbroken(token: string)
    requires MethodFromToken(token).Some?
    ensures token != "" && Unbroken(token)
  {}

  lemma PathUnbroken(path: string)
    requires AllPath(path)
    ensures Unbroken(path)
  {}

  lemma LineSlices(a: string, b: string, c: string, d: string, e: string, rest: string)
    ensures var s := (a + (b + (c + (d + e)))) + rest;
            var (i, j, k) := (|a| + |b|, |a| + |b| + |c|, |a| + |b| + |c| + |d|);
            s[..|a|] == a && s[|a|..i] == b && s[i..j] == c && s[j..k] == d && s[k..k + |e|] == e && s[k + |e|..] == rest
  {}

  lemma SpaceAt(s: string, hi: nat, from: nat, at: nat)
    requires from <= at <= hi <= |s| && (forall k :: from <= k < at ==> s[k] != ' ') && (at < hi ==> s[at] == ' ')
    ensures Find(s[..hi], ' ', from) == at
  {
    assert forall k :: 0 <= k < hi ==> s[..hi][k] == s[k];
  }

  /** Where the spaces of the line are. */
  lemma LineSpaces(token: string, path: string, rest: string)
    requires MethodFromToken(token).Some? && Unbroken(path)
    ensures var (s, i, j, hi) := (LineFor(token, path) + rest, |token|, |token| + 1 + |path|, |LineFor(token, path)|);
            && s[i] == ' ' && s[j] == ' ' && s[j + 1..hi] == "HTTP/1.0" && s[..i] == token && s[i + 1..j] == path
            && forall k :: 0 <= k < hi && k != i && k != j ==> s[k] != ' ' && s[k] != CR
  {
    var (s, i, j, hi) := (LineFor(token, path) + rest, |token|, |token| + 1 + |path|, |LineFor(token, path)|);
    TokenUnbroken(token);
    VersionReads();
    LineSlices(token, " ", path, " ", "HTTP/1.0", rest);
    assert s[i..i + 1][0] == s[i] && s[j..j + 1][0] == s[j];
    assert forall k :: 0 <= k < i ==> s[k] == token[k];
    assert forall k :: i < k < j ==> s[k] == path[k - i - 1];
    assert forall k :: j < k < hi ==> s[k] == "HTTP/1.0"[k - j - 1];
  }

  lemma LineParses(s: string, i: nat, j: nat, hi: nat)
    requires 0 < i && i + 1 < j < hi <= |s| && s[i] == ' ' && s[j] == ' ' && s[j + 1..hi] == "HTTP/1.0"
    requires forall k :: 0 <= k < hi && k != i && k != j ==> s[k] != ' '
    requires MethodFromToken(s[..i]).Some?
    ensures ParseRequestLine(s, 0, hi) == Ok(RequestLine(MethodFromToken(s[..i]).value, Span(i + 1, j), false))
  {
    SpaceAt(s, hi, 0, i);
    SpaceAt(s, hi, i + 1, j);
    SpaceAt(s, hi, j + 1, hi);
    VersionReads();
  }

  lemma VersionReads()
    ensures VersionIsWellFormed("HTTP/1.0") && "HTTP/1.0" != "HTTP/1.1"
    ensures forall k :: 0 <= k < 8 ==> "HTTP/1.0"[k] != ' ' && "HTTP/1.0"[k] != CR
  {
    var version := "HTTP/1.0";
    assert version[..5] == "HTTP/" && version[5] == '1' && version[6] == '.' && version[7] == '0';
    assert version[7] != "HTTP/1.1"[7];
  }

  lemma NoPrologue(bytes: string)
    requires bytes != "" && bytes[0] != CR
    ensures Prologue(bytes) == 0
  {
    assert |bytes| >= 2 ==> bytes[..2][0] == bytes[0] && CRLF[0] == CR;
  }

  lemma NoMatchAt(s: string, pattern: string, at: nat)
    requires pattern != "" && at < |s| && s[at] != pattern[0]
    ensures !HasAt(s, pattern, at)
  {
    if at + |pattern| <= |s| { assert s[at..at + |pattern|][0] == s[at]; }
  }

  /** A text without CR before a terminator is framed as one line. */
  lemma LineFrames(line: string, limits: Limits)
    requires line != "" && (forall k :: 0 <= k < |line| ==> line[k] != CR)
    requires |line| <= limits.maxRequestLine && |line| + 4 <= limits.maxHeaderBlock
    ensures FrameHead(line + TERMINATOR, limits) == Ok(Framing(0, |line|, |line| + 4))
  {
    var s := line + TERMINATOR;
    assert forall k :: 0 <= k < |line| ==> s[k] == line[k];
    NoPrologue(s);
    assert s[|line|..|line| + 2] == CRLF && s[|line|..|line| + 4] == TERMINATOR;
    assert HasAt(s, CRLF, |line|) && HasAt(s, TERMINATOR, |line|);
    forall i | 0 <= i < |line| ensures !HasAt(s, CRLF, i) && !HasAt(s, TERMINATOR, i) {
      NoMatchAt(s, CRLF, i);
      NoMatchAt(s, TERMINATOR, i);
    }
    assert FindText(s, CRLF) == |line| && FindText(s, TERMINATOR) == |line|;
  }

  lemma TargetParses(s: string, lo: nat, hi: nat)
    requires lo < hi <= |s| && AllPath(s[lo..hi]) && s[lo] == '/'
    ensures SplitTarget(s, Span(lo, hi)) == Ok(Target(InHead(Span(lo, hi)), Nowhere, Nowhere))
  {
    assert forall i :: lo <= i < hi ==> s[i] == s[lo..hi][i - lo] && s[..hi][i] == s[i];
    assert Find(s[..hi], '?', lo) == hi;
  }

  /** A head that has a path and nothing else. */
  function PlainParts(verb: Method, span: Span): Parts {
    Parts(RequestLine(verb, span, false), [], 0, Target(InHead(span), Nowhere, Nowhere))
  }

  function PlainHead(head: string, verb: Method, span: Span): ParsedHead {
    ParsedHead(verb, InHead(span), InHead(span), Nowhere, Nowhere, [], NO_QUERY, false, |head|, 0)
  }

  lemma PartsCut(s: string, n: nat, verb: Method, span: Span, limits: Limits)
    requires n + 4 == |s| && Inside(span, |s|) && span.hi - span.lo <= limits.maxTarget
    requires ParseRequestLine(s, 0, n) == Ok(RequestLine(verb, span, false))
    requires SplitTarget(s, span) == Ok(Target(InHead(span), Nowhere, Nowhere))
    ensures CutHead(s, 0, n, limits.maxTarget, limits.maxHeaderCount, limits.maxBody) == Ok(PlainParts(verb, span))
  {
    var count := if limits.maxHeaderCount < MAX_PARSED_HEADERS then limits.maxHeaderCount else MAX_PARSED_HEADERS;
    assert ParseFields(s, n + 2, n + 2, count) == Ok([]);
    assert ContentLength(s, [], limits.maxBody) == Ok(0);
  }

  /** Where the path of that request lies. */
  function PathSpan(token: string, path: string): Span { Span(|token| + 1, |token| + 1 + |path|) }

  /** The head of that request, cut into its parts. */
  lemma HeadCuts(token: string, path: string, limits: Limits)
    requires MethodFromToken(token).Some? && Requestable(path) && |path| <= limits.maxTarget
    ensures var (s, span) := (RequestFor(token, path), PathSpan(token, path));
            && Inside(span, |s|) && Slice(s, span) == path
            && CutHead(s, 0, |LineFor(token, path)|, limits.maxTarget, limits.maxHeaderCount, limits.maxBody) ==
               Ok(PlainParts(MethodFromToken(token).value, span))
  {
    var (s, n, span) := (RequestFor(token, path), |LineFor(token, path)|, PathSpan(token, path));
    TokenUnbroken(token);
    PathUnbroken(path);
    LineSpaces(token, path, TERMINATOR);
    assert s[span.lo..span.hi][0] == path[0];
    HeadCutsAt(s, |token|, span.hi, n, limits);
  }

  lemma HeadCutsAt(s: string, i: nat, j: nat, n: nat, limits: Limits)
    requires 0 < i && i + 1 < j < n && n + 4 == |s| && s[i] == ' ' && s[j] == ' ' && s[j + 1..n] == "HTTP/1.0"
    requires forall k :: 0 <= k < n && k != i && k != j ==> s[k] != ' '
    requires MethodFromToken(s[..i]).Some? && AllPath(s[i + 1..j]) && s[i + 1] == '/' && j - (i + 1) <= limits.maxTarget
    ensures CutHead(s, 0, n, limits.maxTarget, limits.maxHeaderCount, limits.maxBody) ==
            Ok(PlainParts(MethodFromToken(s[..i]).value, Span(i + 1, j)))
  {
    LineParses(s, i, j, n);
    TargetParses(s, i + 1, j);
    PartsCut(s, n, MethodFromToken(s[..i]).value, Span(i + 1, j), limits);
  }

  lemma PartsCheck(head: string, verb: Method, span: Span, limits: Limits)
    requires span.lo <= span.hi <= |head| && IsCanonicalPath(Slice(head, span))
    ensures CheckHead(head, PlainParts(verb, span), limits) == Ok(PlainHead(head, verb, span))
  {
    assert ResolveAuthority(head, [], Nowhere, false, limits) == Ok(Nowhere);
    assert QueryParameters(head, Nowhere) == Ok(NO_QUERY);
  }

  lemma RequestFrames(token: string, path: string, limits: Limits)
    requires MethodFromToken(token).Some? && Unbroken(path) && RoomFor(token, path, limits)
    ensures var n := |LineFor(token, path)|; FrameHead(RequestFor(token, path), limits) == Ok(Framing(0, n, n + 4))
  {
    var line := LineFor(token, path);
    LineSpaces(token, path, "");
    assert line + "" == line;
    LineFrames(line, limits);
  }

  lemma RequestHead(token: string, path: string, limits: Limits)
    requires MethodFromToken(token).Some? && Requestable(path) && RoomFor(token, path, limits)
    ensures var (s, span) := (RequestFor(token, path), PathSpan(token, path));
            && Inside(span, |s|) && Slice(s, span) == path
            && ParseHead(s, limits) == Ok(PlainHead(s, MethodFromToken(token).value, span))
  {
    var (s, verb, span) := (RequestFor(token, path), MethodFromToken(token).value, PathSpan(token, path));
    PathUnbroken(path);
    RequestFrames(token, path, limits);
    HeadCuts(token, path, limits);
    PartsCheck(s, verb, span, limits);
    BlockOfParts(s, |LineFor(token, path)|, PlainParts(verb, span), PlainHead(s, verb, span), limits);
    HeadFollowsFraming(s, limits);
    assert s[..|s|] == s;
  }

  lemma BlockOfParts(head: string, lineEnd: nat, parts: Parts, h: ParsedHead, limits: Limits)
    requires lineEnd + 4 <= |head| && PartsInside(parts, |head|)
    requires CutHead(head, 0, lineEnd, limits.maxTarget, limits.maxHeaderCount, limits.maxBody) == Ok(parts)
    requires CheckHead(head, parts, limits) == Ok(h)
    ensures ParseBlock(head, 0, lineEnd, limits) == Ok(h)
  {}

  lemma HeadMeans(s: string, verb: Method, span: Span)
    requires span.lo <= span.hi <= |s|
    ensures var h := PlainHead(s, verb, span);
            && Complete(s, h).Ok? && Complete(s, h).value.request.verb == verb
            && Complete(s, h).value.request.path == Slice(s, span)
  {
    assert s[..|s|] == s;
  }

  /** And every such path is carried by a request, with any method. */
  lemma RequestableIsParsed(token: string, path: string, limits: Limits)
    requires MethodFromToken(token).Some? && Requestable(path) && RoomFor(token, path, limits)
    ensures Carries(RequestFor(token, path), limits, MethodFromToken(token).value, path)
  {
    RequestHead(token, path, limits);
    HeadMeans(RequestFor(token, path), MethodFromToken(token).value, PathSpan(token, path));
    RequestFollowsHead(RequestFor(token, path), limits);
  }

  function TokenOf(verb: Method): (token: string)
    ensures MethodFromToken(token) == Some(verb)
  {
    match verb
    case Get => "GET"
    case Head => "HEAD"
    case Post => "POST"
    case Put => "PUT"
    case Patch => "PATCH"
    case Delete => "DELETE"
    case Options => "OPTIONS"
  }

  /** Some request, under some limits, is parsed to this method and path. */
  ghost predicate Carried(verb: Method, path: string) {
    exists bytes, limits :: Carries(bytes, limits, verb, path)
  }

  /** The paths of parsed requests are exactly these, whatever the method. */
  lemma CarriedPaths(verb: Method, path: string)
    ensures Carried(verb, path) <==> Requestable(path)
  {
    if Requestable(path) {
      var limits := RoomyLimits(TokenOf(verb), path);
      RequestableIsParsed(TokenOf(verb), path, limits);
    }
    if bytes, limits :| Carries(bytes, limits, verb, path) {
      ParsedIsRequestable(bytes, limits);
    }
  }

  function RoomyLimits(token: string, path: string): (limits: Limits)
    ensures RoomFor(token, path, limits)
  {
    var n := |LineFor(token, path)| + 4;
    Limits(n, n, 0, n, 0, _ => false)
  }
}
