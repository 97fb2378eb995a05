/**
 The HTTP/1.1 request parser (src/request.cpp). A head is parsed into spans of
 the bytes it was found in; `ParseRequest` is the one-shot meaning of a byte
 string, and the class `RequestParser` at the end keeps a parsed head across
 calls and rebases its borrowed views when the buffer moves.
 */
module RequestParsing {
  import opened Text
  import opened Messages
  import opened Fields

  /** The configured limits, and the address parser of the C library. */
  datatype Limits = Limits(
    maxRequestLine: nat, maxHeaderBlock: nat, maxHeaderCount: nat, maxTarget: nat, maxBody: nat,
    isIpv6: string -> bool)

  function Require(condition: bool, error: ParseError): Result<()> {
    if condition then Ok(()) else Err(error)
  }

  // --------------------------------------------------------------- request line

  predicate VersionIsWellFormed(v: string) {
    |v| == 8 && Prefix("HTTP/", v) && IsDigit(v[5]) && v[6] == '.' && IsDigit(v[7])
  }

  datatype RequestLine = RequestLine(verb: Method, target: Span, isVersion11: bool)

  function ParseRequestLine(s: string, lo: nat, hi: nat): (r: Result<RequestLine>)
    requires lo <= hi <= |s|
    ensures r.Ok? ==> lo < r.value.target.lo < r.value.target.hi < hi
  {
    var line := s[..hi];
    var methodEnd := Find(line, ' ', lo);
    if methodEnd == hi || methodEnd == lo then Err(MalformedRequestLine)
    else
      var targetEnd := Find(line, ' ', methodEnd + 1);
      if targetEnd == hi || Find(line, ' ', targetEnd + 1) != hi || targetEnd == methodEnd + 1 then
        Err(MalformedRequestLine)
      else
        var verb := MethodFromToken(s[lo..methodEnd]);
        if verb.None? then Err(UnknownMethod)
        else
          var version := s[targetEnd + 1..hi];
          if !VersionIsWellFormed(version) then Err(MalformedRequestLine)
          else if version != "HTTP/1.1" && version != "HTTP/1.0" then Err(UnsupportedVersion)
          else Ok(RequestLine(verb.value, Span(methodEnd + 1, targetEnd), version == "HTTP/1.1"))
  }

  // ---------------------------------------------------------------------- target

  /** Where a view points: nothing, bytes of the head, or the static root path. */
  datatype Place = Nowhere | InHead(span: Span) | RootPath

  predicate PlaceInside(p: Place, n: nat) { p.InHead? ==> Inside(p.span, n) }

  function PlaceText(s: string, p: Place): string
    requires PlaceInside(p, |s|)
  {
    match p
    case Nowhere => ""
    case InHead(span) => Slice(s, span)
    case RootPath => "/"
  }

  predicate IsTargetCharacter(c: char) { c > ' ' && c != '\U{7F}' && c != '#' }

  datatype Target = Target(path: Place, query: Place, authority: Place)

  function FirstOf(s: string, a: char, b: char, from: nat): (r: nat)
    requires from <= |s|
    ensures from <= r <= |s|
    decreases |s| - from
  {
    if from == |s| || s[from] == a || s[from] == b then from else FirstOf(s, a, b, from + 1)
  }

  /** Splits what follows the authority into path and query. */
  function SplitPath(s: string, lo: nat, hi: nat, authority: Place): (r: Result<Target>)
    requires lo <= hi <= |s| && PlaceInside(authority, |s|)
    ensures r.Ok? ==> PlaceInside(r.value.path, |s|) && PlaceInside(r.value.query, |s|) && PlaceInside(r.value.authority, |s|)
  {
    var mark := Find(s[..hi], '?', lo);
    var query := if mark == hi then Nowhere else InHead(Span(mark + 1, hi));
    if lo == mark then Ok(Target(RootPath, query, authority))
    else if s[lo] != '/' then Err(MalformedRequestLine)
    else Ok(Target(InHead(Span(lo, mark)), query, authority))
  }

  function SplitTarget(s: string, sp: Span): (r: Result<Target>)
    requires Inside(sp, |s|)
    ensures r.Ok? ==> PlaceInside(r.value.path, |s|) && PlaceInside(r.value.query, |s|) && PlaceInside(r.value.authority, |s|)
  {
    var target := s[..sp.hi];
    if exists i :: sp.lo <= i < sp.hi && !IsTargetCharacter(s[i]) then Err(MalformedRequestLine)
    else if sp.lo < sp.hi && s[sp.lo] == '/' then SplitPath(s, sp.lo, sp.hi, Nowhere)
    else
      var schemeEnd := FindText(target, "://", sp.lo);
      if schemeEnd == sp.hi then Err(MalformedRequestLine)
      else
        var scheme := s[sp.lo..schemeEnd];
        if !EqualsIgnoreCase(scheme, "http") && !EqualsIgnoreCase(scheme, "https") then Err(MalformedRequestLine)
        else
          var lo := schemeEnd + 3;
          var end := FirstOf(target, '/', '?', lo);
          if end == lo then Err(MalformedRequestLine)
          else SplitPath(s, end, sp.hi, InHead(Span(lo, end)))
  }

  // ------------------------------------------------------------------- authority

  predicate PortIsWellFormed(port: string) {
    && port != "" && |port| <= 5 && port[0] != '0'
    && (forall i :: 0 <= i < |port| ==> IsDigit(port[i]))
    && NumeralValue(port) <= 65535
  }

  predicate IsLabelCharacter(c: char) {
    'a' <= c <= 'z' || 'A' <= c <= 'Z' || IsDigit(c) || c in "-._~"
  }

  predicate RegisteredNameIsWellFormed(host: string) {
    var rest := if host != "" && host[|host| - 1] == '.' then host[..|host| - 1] else host;
    forall part :: part in Split(rest, '.') ==> part != "" && forall i :: 0 <= i < |part| ==> IsLabelCharacter(part[i])
  }

  predicate IpLiteralIsWellFormed(literal: string, limits: Limits) {
    && |literal| > 2 && literal[0] == '[' && literal[|literal| - 1] == ']'
    && |literal| - 2 < 46
    && limits.isIpv6(literal[1..|literal| - 1])
  }

  predicate AuthorityIsWellFormed(authority: string, limits: Limits) {
    && authority != "" && '@' !in authority
    && if authority[0] == '[' then
         var end := Find(authority, ']');
         && end < |authority|
         && (end + 1 < |authority| ==> authority[end + 1] == ':' && PortIsWellFormed(authority[end + 2..]))
         && IpLiteralIsWellFormed(authority[..end + 1], limits)
       else
         var colon := Find(authority, ':');
         && RegisteredNameIsWellFormed(authority[..colon])
         && (colon < |authority| ==> PortIsWellFormed(authority[colon + 1..]))
  }

  /** The values of all Host fields, in order. */
  function Hosts(s: string, headers: seq<Header>): (r: seq<Span>)
    requires HeadersInside(headers, |s|)
    ensures forall i :: 0 <= i < |r| ==> Inside(r[i], |s|)
  {
    if headers == [] then []
    else (if Names(s, headers[0], "Host") then [headers[0].value] else []) + Hosts(s, headers[1..])
  }

  function ResolveAuthority(s: string, headers: seq<Header>, target: Place, isVersion11: bool, limits: Limits): (r: Result<Place>)
    requires HeadersInside(headers, |s|) && PlaceInside(target, |s|)
    ensures r.Ok? ==> PlaceInside(r.value, |s|)
  {
    var hosts := Hosts(s, headers);
    if |hosts| > 1 then Err(MalformedHost)
    else if hosts == [] && isVersion11 then Err(MissingHost)
    else if hosts != [] && !AuthorityIsWellFormed(Slice(s, hosts[0]), limits) then Err(MalformedHost)
    else if PlaceText(s, target) == "" then Ok(if hosts == [] then Nowhere else InHead(hosts[0]))
    else if !AuthorityIsWellFormed(PlaceText(s, target), limits) then Err(MalformedHost)
    else if hosts != [] && !EqualsIgnoreCase(Slice(s, hosts[0]), PlaceText(s, target)) then Err(MalformedHost)
    else Ok(target)
  }

  // ------------------------------------------------------------------------ path

  predicate SegmentIsPlain(segment: string) {
    segment != "" && segment != "." && segment != ".." && '%' !in segment
  }

  /** Every segment names something; only the last may be empty (a trailing slash). */
  predicate SegmentsArePlain(segments: seq<string>)
    requires segments != []
  {
    if |segments| == 1 then segments[0] == "" || SegmentIsPlain(segments[0])
    else SegmentIsPlain(segments[0]) && SegmentsArePlain(segments[1..])
  }

  predicate IsCanonicalPath(path: string) {
    path != "" && path[0] == '/' && '\\' !in path && SegmentsArePlain(Split(path[1..], '/'))
  }

  lemma PlainStep(rest: string)
    ensures var (at, segment) := (Find(rest, '/'), rest[..Find(rest, '/')]);
            SegmentsArePlain(Split(rest, '/')) <==>
            if at == |rest| then segment == "" || SegmentIsPlain(segment)
            else SegmentIsPlain(segment) && SegmentsArePlain(Split(rest[at + 1..], '/'))
  {
    var at := Find(rest, '/');
    SplitOnce(rest, '/');
    if at < |rest| {
      var pieces, tail := Split(rest, '/'), Split(rest[at + 1..], '/');
      assert pieces[0] == rest[..at] && pieces[1..] == tail;
    }
  }

  method PathIsCanonical(path: string) returns (ok: bool)
    ensures ok <==> IsCanonicalPath(path)
  {
    if path == "" || path[0] != '/' || '\\' in path { return false; }
    var rest := path[1..];
    while rest != ""
      invariant SegmentsArePlain(Split(path[1..], '/')) <==> SegmentsArePlain(Split(rest, '/'))
      decreases |rest|
    {
      PlainStep(rest);
      var separator := Find(rest, '/');
      var segment := rest[..separator];
      if separator == |rest| { return SegmentIsPlain(segment); }
      if !SegmentIsPlain(segment) { return false; }
      rest := rest[separator + 1..];
    }
    PlainStep(rest);
    return true;
  }

  // ----------------------------------------------------------------------- query

  /** One character off the front of a query component: what it decodes to and how many bytes it took. */
  function DecodeOne(raw: string): (r: Option<(char, nat)>)
    requires raw != ""
    ensures r.Some? ==> 1 <= r.value.1 <= |raw|
  {
    if raw[0] == '+' then Some((' ', 1))
    else if raw[0] != '%' then Some((raw[0], 1))
    else if |raw| < 3 || HexValue(raw[1]).None? || HexValue(raw[2]).None? then None
    else
      var code := HexValue(raw[1]).value * 16 + HexValue(raw[2]).value;
      if code < 0x20 || code == 0x7F then None else Some((code as char, 3))
  }

  function DecodeComponent(raw: string): (r: Option<string>)
    ensures r.Some? ==> |r.value| <= |raw|
  {
    if raw == "" then Some("")
    else
      match DecodeOne(raw)
      case None => None
      case Some((c, n)) =>
        match DecodeComponent(raw[n..])
        case None => None
        case Some(rest) => Some([c] + rest)
  }

  ghost function Behind(done: string, rest: Option<string>): Option<string> {
    if rest.Some? then Some(done + rest.value) else None
  }

  lemma DecodeBegins(raw: string)
    ensures DecodeComponent(raw) == Behind("", DecodeComponent(raw[0..]))
  {
    assert raw[0..] == raw;
    assert DecodeComponent(raw).Some? ==> "" + DecodeComponent(raw).value == DecodeComponent(raw).value;
  }

  lemma DecodeStep(raw: string, i: nat, done: string)
    requires i < |raw| && DecodeOne(raw[i..]).Some?
    ensures var (c, n) := DecodeOne(raw[i..]).value;
            && 0 < n <= |raw| - i
            && Behind(done, DecodeComponent(raw[i..])) == Behind(done + [c], DecodeComponent(raw[i + n..]))
  {
    var (c, n) := DecodeOne(raw[i..]).value;
    assert raw[i..][n..] == raw[i + n..];
    var rest := DecodeComponent(raw[i + n..]);
    if rest.Some? { Associate(done, [c], rest.value); }
  }

  /** The in-place loop appends exactly the decoded text, or part of it before a bad escape. */
  method DecodeComponentInto(arena: string, raw: string) returns (ok: bool, arena': string)
    ensures ok <==> DecodeComponent(raw).Some?
    ensures ok ==> arena' == arena + DecodeComponent(raw).value
    ensures |arena'| <= |arena| + |raw|
  {
    arena' := arena;
    var i := 0;
    ghost var done := "";
    DecodeBegins(raw);
    while i < |raw|
      invariant 0 <= i <= |raw| && |done| <= i
      invariant arena' == arena + done
      invariant DecodeComponent(raw) == Behind(done, DecodeComponent(raw[i..]))
    {
      match DecodeOne(raw[i..]) {
        case None => return false, arena';
        case Some(pair) =>
          DecodeStep(raw, i, done);
          arena' := arena' + [pair.0];
          done := done + [pair.0];
          i := i + pair.1;
      }
    }
    assert raw[i..] == "";
    return true, arena';
  }

  datatype Parameters = Parameters(arena: string, spans: seq<(Span, Span)>)

  predicate ParametersInside(p: Parameters) {
    forall i :: 0 <= i < |p.spans| ==> Inside(p.spans[i].0, |p.arena|) && Inside(p.spans[i].1, |p.arena|)
  }

  function AppendParameter(p: Parameters, name: string, value: string): (r: Parameters)
    requires ParametersInside(p)
    ensures ParametersInside(r)
  {
    var a, b := |p.arena|, |p.arena| + |name|;
    Parameters(p.arena + name + value, p.spans + [(Span(a, b), Span(b, b + |value|))])
  }

  /** Decodes the pairs of a query into the arena, left to right. */
  function DecodeQuery(p: Parameters, raw: string): (r: Result<Parameters>)
    requires ParametersInside(p)
    ensures r.Ok? ==> ParametersInside(r.value) && |r.value.arena| <= |p.arena| + |raw|
    decreases |raw|
  {
    if raw == "" then Ok(p)
    else
      var next := Find(raw, '&');
      var pair, rest := raw[..next], if next == |raw| then "" else raw[next + 1..];
      var assignment := Find(pair, '=');
      var name, value := pair[..assignment], if assignment == |pair| then "" else pair[assignment + 1..];
      if name == "" then DecodeQuery(p, rest)
      else if |p.spans| == MAX_PARSED_HEADERS then Err(TargetTooLong)
      else
        match (DecodeComponent(name), DecodeComponent(value))
        case (Some(n), Some(v)) => DecodeQuery(AppendParameter(p, n, v), rest)
        case _ => Err(BadPercentEncoding)
  }

  // ------------------------------------------------------------------------ head

  /** A validated head: `bodyOffset` bytes, then `bodyBytes` of body to come. */
  datatype ParsedHead = ParsedHead(
    verb: Method, target: Place, path: Place, query: Place, authority: Place, headers: seq<Header>,
    parameters: Parameters, keepAlive: bool, bodyOffset: nat, bodyBytes: nat)

  predicate HeadInside(h: ParsedHead) {
    && PlaceInside(h.target, h.bodyOffset) && PlaceInside(h.path, h.bodyOffset)
    && PlaceInside(h.query, h.bodyOffset) && PlaceInside(h.authority, h.bodyOffset)
    && HeadersInside(h.headers, h.bodyOffset) && ParametersInside(h.parameters)
  }

  function QueryParameters(head: string, query: Place): (r: Result<Parameters>)
    requires PlaceInside(query, |head|)
    ensures r.Ok? ==> ParametersInside(r.value) && |r.value.arena| <= |PlaceText(head, query)|
  {
    DecodeQuery(Parameters("", []), PlaceText(head, query))
  }

  /** The parts of a head, cut and measured but with the authority, path and query still to be checked. */
  datatype Parts = Parts(line: RequestLine, headers: seq<Header>, length: nat, target: Target)

  predicate PartsInside(p: Parts, n: nat) {
    && HeadersInside(p.headers, n) && p.line.target.lo <= p.line.target.hi <= n
    && PlaceInside(p.target.path, n) && PlaceInside(p.target.query, n) && PlaceInside(p.target.authority, n)
  }

  function CutHead(head: string, lo: nat, lineEnd: nat, maxTarget: nat, maxHeaderCount: nat, maxBody: nat): (r: Result<Parts>)
    requires lo <= lineEnd && lineEnd + 4 <= |head|
    ensures r.Ok? ==> PartsInside(r.value, |head|)
  {
    var line :- ParseRequestLine(head, lo, lineEnd);
    var _ :- Require(line.target.hi - line.target.lo <= maxTarget, TargetTooLong);
    var count := if maxHeaderCount < MAX_PARSED_HEADERS then maxHeaderCount else MAX_PARSED_HEADERS;
    var headers :- ParseFields(head, lineEnd + 2, |head| - 2, count);
    var length :- ContentLength(head, headers, maxBody);
    var target :- SplitTarget(head, line.target);
    Ok(Parts(line, headers, length, target))
  }

  function CheckHead(head: string, p: Parts, limits: Limits): (r: Result<ParsedHead>)
    requires PartsInside(p, |head|)
    ensures r.Ok? ==> HeadInside(r.value) && r.value.bodyOffset == |head| && ArenaFits(head, r.value)
  {
    var authority :- ResolveAuthority(head, p.headers, p.target.authority, p.line.isVersion11, limits);
    var _ :- Require(IsCanonicalPath(PlaceText(head, p.target.path)), MalformedRequestLine);
    var parameters :- QueryParameters(head, p.target.query);
    Ok(ParsedHead(p.line.verb, InHead(p.line.target), p.target.path, p.target.query, authority, p.headers, parameters,
                  ResolveKeepAlive(head, p.headers, p.line.isVersion11), |head|, p.length))
  }

  /** A complete head: the request line is `lo..lineEnd`, the last field line ends two bytes before the end. */
  function ParseBlock(head: string, lo: nat, lineEnd: nat, limits: Limits): (r: Result<ParsedHead>)
    requires lo <= lineEnd && lineEnd + 4 <= |head|
    ensures r.Ok? ==> HeadInside(r.value) && r.value.bodyOffset == |head| && ArenaFits(head, r.value)
  {
    var parts :- CutHead(head, lo, lineEnd, limits.maxTarget, limits.maxHeaderCount, limits.maxBody);
    CheckHead(head, parts, limits)
  }

  /** One leading empty line is skipped. */
  function Prologue(bytes: string): nat { if Prefix(CRLF, bytes) then 2 else 0 }

  /** Where a complete head lies: its request line is `start..lineEnd`, and it ends at `end`. */
  datatype Framing = Framing(start: nat, lineEnd: nat, end: nat)

  function FrameHead(bytes: string, limits: Limits): (r: Result<Framing>)
    ensures r.Ok? ==> r.value.start <= r.value.lineEnd && r.value.lineEnd + 4 <= r.value.end <= |bytes|
  {
    var start := Prologue(bytes);
    var lineEnd := FindText(bytes, CRLF, start);
    if lineEnd - start > limits.maxRequestLine then Err(TargetTooLong)
    else
      var terminator := FindText(bytes, TERMINATOR, start);
      if terminator == |bytes| then
        if |bytes| - start > limits.maxHeaderBlock then Err(TooManyHeaders) else Err(NeedsMoreData)
      else if terminator + 4 - start > limits.maxHeaderBlock then Err(TooManyHeaders)
      else
        LineEndsFirst(bytes, start);
        Ok(Framing(start, lineEnd, terminator + 4))
  }

  /** The decoded query fits the arena reserved for it, which therefore never moves. */
  predicate ArenaFits(head: string, h: ParsedHead)
    requires HeadInside(h) && h.bodyOffset == |head|
  {
    |h.parameters.arena| <= |PlaceText(head, h.query)|
  }

  function ParseHead(bytes: string, limits: Limits): (r: Result<ParsedHead>)
    ensures r.Ok? ==> HeadInside(r.value) && r.value.bodyOffset <= |bytes|
    ensures r.Ok? ==> ArenaFits(bytes[..r.value.bodyOffset], r.value)
  {
    match FrameHead(bytes, limits)
    case Err(e) => Err(e)
    case Ok(f) => ParseBlock(bytes[..f.end], f.start, f.lineEnd, limits)
  }

  /** The terminator begins with a line end, so the request line ends no later. */
  lemma LineEndsFirst(bytes: string, start: nat)
    requires start <= |bytes| && FindText(bytes, TERMINATOR, start) < |bytes|
    ensures FindText(bytes, CRLF, start) <= FindText(bytes, TERMINATOR, start)
  {
    var t := FindText(bytes, TERMINATOR, start);
    assert bytes[t..t + 2] == bytes[t..t + 4][..2];
    assert HasAt(bytes, CRLF, t);
  }

  // -------------------------------------------------------------------- one shot

  datatype Parsed = Parsed(request: Request, consumed: nat, bodyOffset: nat)

  function ParameterTexts(p: Parameters): (r: seq<(string, string)>)
    requires ParametersInside(p)
    ensures |r| == |p.spans|
  {
    seq(|p.spans|, i requires 0 <= i < |p.spans| => (Slice(p.arena, p.spans[i].0), Slice(p.arena, p.spans[i].1)))
  }

  /** What a head and its body say, read from the bytes they were found in. */
  function Meaning(bytes: string, h: ParsedHead): Request
    requires HeadInside(h) && h.bodyOffset + h.bodyBytes <= |bytes|
  {
    var head := bytes[..h.bodyOffset];
    Request(h.verb, PlaceText(head, h.target), PlaceText(head, h.path), PlaceText(head, h.query),
            PlaceText(head, h.authority), HeaderTexts(head, h.headers), ParameterTexts(h.parameters), h.keepAlive,
            bytes[h.bodyOffset..h.bodyOffset + h.bodyBytes])
  }

  function Complete(bytes: string, h: ParsedHead): (r: Result<Parsed>)
    requires HeadInside(h) && h.bodyOffset <= |bytes|
    ensures r.Ok? ==> r.value.bodyOffset <= r.value.consumed <= |bytes|
  {
    if |bytes| - h.bodyOffset < h.bodyBytes then Err(NeedsMoreData)
    else Ok(Parsed(Meaning(bytes, h), h.bodyOffset + h.bodyBytes, h.bodyOffset))
  }

  function ParseRequest(bytes: string, limits: Limits): (r: Result<Parsed>)
    ensures r.Ok? ==> r.value.bodyOffset <= r.value.consumed <= |bytes|
  {
    match ParseHead(bytes, limits)
    case Err(e) => Err(e)
    case Ok(h) => Complete(bytes, h)
  }

  // ------------------------------------------------------------ prefixes of input

  lemma RequestFollowsHead(bytes: string, limits: Limits)
    ensures ParseRequest(bytes, limits) ==
            match ParseHead(bytes, limits)
            case Err(e) => Err(e)
            case Ok(h) => Complete(bytes, h)
  {}

  lemma PrologueStable(bytes: string, more: string)
    requires |bytes| >= 2
    ensures Prologue(bytes + more) == Prologue(bytes)
  {
    assert (bytes + more)[..2] == bytes[..2];
  }

  lemma FramingIsStable(bytes: string, more: string, limits: Limits)
    requires FrameHead(bytes, limits).Ok?
    ensures FrameHead(bytes + more, limits) == FrameHead(bytes, limits)
  {
    PrologueStable(bytes, more);
    var start := Prologue(bytes);
    LineEndsFirst(bytes, start);
    FindTextStable(bytes, more, TERMINATOR, start);
    FindTextStable(bytes, more, CRLF, start);
  }

  /** Once a head is complete, later bytes do not change it, nor an error found in it. */
  lemma HeadIsStable(bytes: string, more: string, limits: Limits)
    requires FrameHead(bytes, limits).Ok?
    ensures ParseHead(bytes + more, limits) == ParseHead(bytes, limits)
  {
    FramingIsStable(bytes, more, limits);
    var end := FrameHead(bytes, limits).value.end;
    assert (bytes + more)[..end] == bytes[..end];
  }

  /** A head that was accepted is the head of every continuation. */
  lemma HeadIsKept(seen: string, limits: Limits)
    requires ParseHead(seen, limits).Ok?
    ensures forall bytes {:trigger ParseHead(bytes, limits)} ::
              Prefix(seen, bytes) ==> ParseHead(bytes, limits) == ParseHead(seen, limits)
  {
    AcceptedLineIsNotEmpty(seen, limits);
    forall bytes | Prefix(seen, bytes)
      ensures ParseHead(bytes, limits) == ParseHead(seen, limits)
    {
      assert bytes == seen + bytes[|seen|..];
      HeadIsStable(seen, bytes[|seen|..], limits);
    }
  }

  lemma CompleteIsStable(bytes: string, more: string, h: ParsedHead)
    requires HeadInside(h) && h.bodyOffset + h.bodyBytes <= |bytes|
    ensures Complete(bytes + more, h) == Complete(bytes, h)
  {
    var all := bytes + more;
    assert all[..h.bodyOffset] == bytes[..h.bodyOffset];
    assert all[h.bodyOffset..h.bodyOffset + h.bodyBytes] == bytes[h.bodyOffset..h.bodyOffset + h.bodyBytes];
  }

  /** A successful parse is unchanged by any extension of the input. */
  lemma SuccessIsStable(bytes: string, more: string, limits: Limits)
    requires ParseRequest(bytes, limits).Ok?
    ensures ParseRequest(bytes + more, limits) == ParseRequest(bytes, limits)
  {
    HeadIsStable(bytes, more, limits);
    CompleteIsStable(bytes, more, ParseHead(bytes, limits).value);
  }

  /** The length of the request line of a parsed input. */
  function LineLength(bytes: string, limits: Limits): nat
    requires FrameHead(bytes, limits).Ok?
  {
    FrameHead(bytes, limits).value.lineEnd - FrameHead(bytes, limits).value.start
  }

  lemma {:induction false} FindTextInPrefix(s: string, n: nat, pattern: string, from: nat)
    requires pattern != "" && from <= n <= |s|
    ensures FindText(s[..n], pattern, from) ==
            if FindText(s, pattern, from) + |pattern| <= n then FindText(s, pattern, from) else n
    decreases n - from
  {
    var p := s[..n];
    if from < n {
      if from + |pattern| <= n { assert p[from..from + |pattern|] == s[from..from + |pattern|]; }
      if !HasAt(p, pattern, from) {
        FindTextInPrefix(s, n, pattern, from + 1);
      }
    }
  }

  /** How much of a complete head a prefix frames: too little, or, when the request line is exactly at the limit and the
      cut falls between its CR and LF, a line that looks too long. */
  lemma PrefixFraming(bytes: string, n: nat, limits: Limits)
    requires FrameHead(bytes, limits).Ok? && n <= |bytes| && LineLength(bytes, limits) > 0
    ensures var f := FrameHead(bytes, limits).value;
            FrameHead(bytes[..n], limits) ==
            if n >= f.end then Ok(f)
            else if LineLength(bytes, limits) == limits.maxRequestLine && n == f.lineEnd + 1 then Err(TargetTooLong)
            else Err(NeedsMoreData)
  {
    var p := bytes[..n];
    var f := FrameHead(bytes, limits).value;
    LineEndsFirst(bytes, f.start);
    if n >= 2 {
      assert p[..2] == bytes[..2];
      FindTextInPrefix(bytes, n, CRLF, f.start);
      FindTextInPrefix(bytes, n, TERMINATOR, f.start);
    } else {
      assert Prologue(p) == 0;
      assert !HasAt(p, CRLF, 0) && !HasAt(p, TERMINATOR, 0);
    }
  }

  lemma AcceptedLineIsNotEmpty(bytes: string, limits: Limits)
    requires ParseHead(bytes, limits).Ok?
    ensures FrameHead(bytes, limits).Ok? && LineLength(bytes, limits) > 0
    ensures ParseHead(bytes, limits).value.bodyOffset == FrameHead(bytes, limits).value.end
  {}

  lemma HeadFollowsFraming(bytes: string, limits: Limits)
    ensures ParseHead(bytes, limits) ==
            match FrameHead(bytes, limits)
            case Err(e) => Err(e)
            case Ok(f) => ParseBlock(bytes[..f.end], f.start, f.lineEnd, limits)
  {}

  lemma PrefixHead(bytes: string, n: nat, limits: Limits)
    requires ParseHead(bytes, limits).Ok? && n <= |bytes|
    ensures var f := FrameHead(bytes, limits).value;
            ParseHead(bytes[..n], limits) ==
            if n >= f.end then ParseHead(bytes, limits)
            else if LineLength(bytes, limits) == limits.maxRequestLine && n == f.lineEnd + 1 then Err(TargetTooLong)
            else Err(NeedsMoreData)
  {
    AcceptedLineIsNotEmpty(bytes, limits);
    PrefixFraming(bytes, n, limits);
    HeadFollowsFraming(bytes[..n], limits);
    HeadFollowsFraming(bytes, limits);
    var f := FrameHead(bytes, limits).value;
    if n >= f.end {
      assert bytes[..n][..f.end] == bytes[..f.end];
    }
  }

  /** Every proper prefix of an accepted request needs more data, except the one that ends between the CR and LF of a
      request line of exactly the maximum length: that one is refused. A request whose line is strictly under the limit
      has no such prefix. */
  lemma ProperPrefix(bytes: string, n: nat, limits: Limits)
    requires ParseRequest(bytes, limits).Ok? && n < ParseRequest(bytes, limits).value.consumed
    ensures ParseRequest(bytes[..n], limits) ==
            if LineLength(bytes, limits) == limits.maxRequestLine && n == FrameHead(bytes, limits).value.lineEnd + 1
            then Err(TargetTooLong) else Err(NeedsMoreData)
  {
    PrefixHead(bytes, n, limits);
    AcceptedLineIsNotEmpty(bytes, limits);
  }

  lemma SameAuthority(s: string, headers: seq<Header>, target: Place, isVersion11: bool, limits: Limits, tight: Limits)
    requires HeadersInside(headers, |s|) && PlaceInside(target, |s|) && tight.isIpv6 == limits.isIpv6
    ensures ResolveAuthority(s, headers, target, isVersion11, tight) == ResolveAuthority(s, headers, target, isVersion11, limits)
  {}

  lemma SameBlock(head: string, lo: nat, lineEnd: nat, limits: Limits, tight: Limits)
    requires lo <= lineEnd && lineEnd + 4 <= |head| && tight == limits.(maxRequestLine := tight.maxRequestLine)
    ensures ParseBlock(head, lo, lineEnd, tight) == ParseBlock(head, lo, lineEnd, limits)
  {
    var parts := CutHead(head, lo, lineEnd, limits.maxTarget, limits.maxHeaderCount, limits.maxBody);
    if parts.Ok? {
      var p := parts.value;
      SameAuthority(head, p.headers, p.target.authority, p.line.isVersion11, limits, tight);
    }
  }

  lemma SameHead(bytes: string, limits: Limits, tight: Limits)
    requires FrameHead(bytes, limits).Ok? && tight == limits.(maxRequestLine := LineLength(bytes, limits))
    ensures FrameHead(bytes, tight) == FrameHead(bytes, limits) && ParseHead(bytes, tight) == ParseHead(bytes, limits)
  {
    var f := FrameHead(bytes, limits).value;
    assert FrameHead(bytes, tight) == Ok(f);
    SameBlock(bytes[..f.end], f.start, f.lineEnd, limits, tight);
  }

  lemma SameRequest(bytes: string, limits: Limits, tight: Limits)
    requires ParseHead(bytes, tight) == ParseHead(bytes, limits)
    ensures ParseRequest(bytes, tight) == ParseRequest(bytes, limits)
  {}

  lemma LineIsConsumed(bytes: string, limits: Limits)
    requires ParseRequest(bytes, limits).Ok?
    ensures FrameHead(bytes, limits).Ok? && LineLength(bytes, limits) > 0
    ensures FrameHead(bytes, limits).value.lineEnd + 1 < ParseRequest(bytes, limits).value.consumed
  {
    AcceptedLineIsNotEmpty(bytes, limits);
  }

  /** The boundary is real: under a limit that any accepted request's line just meets, the request is still accepted, but
      its prefix that ends between the CR and the LF of that line is refused instead of asking for more. */
  lemma BoundaryIsReached(bytes: string, limits: Limits) returns (tight: Limits, n: nat)
    requires ParseRequest(bytes, limits).Ok?
    ensures FrameHead(bytes, limits).Ok? && tight == limits.(maxRequestLine := LineLength(bytes, limits))
    ensures n == FrameHead(bytes, limits).value.lineEnd + 1 < |bytes|
    ensures ParseRequest(bytes, tight) == ParseRequest(bytes, limits)
    ensures ParseRequest(bytes[..n], tight) == Err(TargetTooLong)
  {
    LineIsConsumed(bytes, limits);
    tight := limits.(maxRequestLine := LineLength(bytes, limits));
    SameHead(bytes, limits, tight);
    SameRequest(bytes, limits, tight);
    n := FrameHead(bytes, limits).value.lineEnd + 1;
    ProperPrefix(bytes, n, tight);
  }

  lemma HeadWithin(bytes: string, n: nat, limits: Limits)
    requires ParseHead(bytes, limits).Ok? && ParseHead(bytes, limits).value.bodyOffset <= n <= |bytes|
    ensures ParseHead(bytes[..n], limits) == ParseHead(bytes, limits)
  {
    PrefixHead(bytes, n, limits);
    AcceptedLineIsNotEmpty(bytes, limits);
  }

  lemma CompleteWithin(bytes: string, n: nat, h: ParsedHead)
    requires HeadInside(h) && h.bodyOffset + h.bodyBytes <= n <= |bytes|
    ensures Complete(bytes[..n], h) == Complete(bytes, h)
  {
    assert bytes == bytes[..n] + bytes[n..];
    CompleteIsStable(bytes[..n], bytes[n..], h);
  }

  /** An accepted request is exactly its consumed bytes. */
  lemma ConsumedBytesSuffice(bytes: string, limits: Limits)
    requires ParseRequest(bytes, limits).Ok?
    ensures ParseRequest(bytes[..ParseRequest(bytes, limits).value.consumed], limits) == ParseRequest(bytes, limits)
  {
    var n := ParseRequest(bytes, limits).value.consumed;
    RequestFollowsHead(bytes, limits);
    RequestFollowsHead(bytes[..n], limits);
    HeadWithin(bytes, n, limits);
    CompleteWithin(bytes, n, ParseHead(bytes, limits).value);
  }
}
