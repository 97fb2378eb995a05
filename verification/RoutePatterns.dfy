/**
 Route patterns (include/erikslund/http/router.hpp): exact paths, whole-segment
 `{captures}` and a trailing `*`. A pattern means a segment-by-segment match of
 the path; the compiled form that the dispatcher walks is proved to decide it.
 */
module RoutePatterns {
  import opened Text

  const MAX_PATH_PARAMETERS := 8
  const SLASH := '/'

  datatype SegmentKind = Literal | Parameter | Wildcard | Invalid

  function ClassifySegment(segment: string, isFinal: bool): SegmentKind {
    if (if segment == "" then !isFinal else segment == "." || segment == "..") then Invalid
    else if segment == "*" then (if isFinal then Wildcard else Invalid)
    else if '*' in segment then Invalid
    else if '{' !in segment && '}' !in segment then Literal
    else if |segment| < 3 || segment[0] != '{' || segment[|segment| - 1] != '}' then Invalid
    else
      var name := segment[1..|segment| - 1];
      if '{' in name || '}' in name then Invalid else Parameter
  }

  // ------------------------------------------------------------------- meaning

  predicate Rooted(path: string) { path != "" && path[0] == SLASH }

  /** The segments behind each slash. */
  function Pieces(path: string): (r: seq<string>)
    requires Rooted(path)
    ensures r != []
  {
    Split(path[1..], SLASH)
  }

  predicate IsCapture(segment: string) { segment != "" && segment[0] == '{' }

  /** A literal segment takes itself, a capture takes any non-empty piece. */
  predicate SegmentMatches(segment: string, piece: string) {
    if IsCapture(segment) then piece != "" else piece == segment
  }

  predicate EndsOpen(segments: seq<string>) { segments != [] && segments[|segments| - 1] == "*" }

  /** How many segments constrain a piece: all but the trailing wildcard. */
  function Fixed(segments: seq<string>): (n: nat)
    ensures n <= |segments|
  {
    if EndsOpen(segments) then |segments| - 1 else |segments|
  }

  predicate MatchesTo(segments: seq<string>, pieces: seq<string>, n: nat)
    requires n <= |segments|
  {
    n <= |pieces| && forall i :: 0 <= i < n ==> SegmentMatches(segments[i], pieces[i])
  }

  /** What a pattern means: every segment matches its piece, and a wildcard takes one or more further pieces. */
  predicate Matches(pattern: string, path: string)
    requires Rooted(pattern)
  {
    && Rooted(path)
    && var (segments, pieces) := (Pieces(pattern), Pieces(path));
    && MatchesTo(segments, pieces, Fixed(segments))
    && (if EndsOpen(segments) then |pieces| >= |segments| else |pieces| == |segments|)
  }

  function CaptureName(segment: string): string
    requires |segment| >= 2
  {
    segment[1..|segment| - 1]
  }

  /** The captures of the first `n` segments, in order. */
  function CapturesTo(segments: seq<string>, pieces: seq<string>, n: nat): seq<(string, string)>
    requires n <= |segments| && n <= |pieces|
  {
    if n == 0 then []
    else
      CapturesTo(segments, pieces, n - 1) +
      if IsCapture(segments[n - 1]) && |segments[n - 1]| >= 2 then [(CaptureName(segments[n - 1]), pieces[n - 1])] else []
  }

  function Captures(pattern: string, path: string): seq<(string, string)>
    requires Rooted(pattern) && Matches(pattern, path)
  {
    CapturesTo(Pieces(pattern), Pieces(path), Fixed(Pieces(pattern)))
  }

  function CaptureCount(segments: seq<string>): nat {
    if segments == [] then 0
    else CaptureCount(segments[..|segments| - 1]) + if IsCapture(segments[|segments| - 1]) then 1 else 0
  }

  predicate KindIs(segments: seq<string>, k: nat, kind: SegmentKind)
    requires k < |segments|
  {
    ClassifySegment(segments[k], k == |segments| - 1) == kind
  }

  predicate ValidTo(segments: seq<string>, n: nat)
    requires n <= |segments|
  {
    n == 0 || (ValidTo(segments, n - 1) && !KindIs(segments, n - 1, Invalid))
  }

  lemma {:induction false} ValidAt(segments: seq<string>, n: nat, i: nat)
    requires i < n <= |segments| && ValidTo(segments, n)
    ensures !KindIs(segments, i, Invalid)
  {
    if i < n - 1 { ValidAt(segments, n - 1, i); }
  }

  predicate SegmentsValid(segments: seq<string>) { ValidTo(segments, |segments|) }

  predicate ValidPattern(pattern: string) {
    Rooted(pattern) && SegmentsValid(Pieces(pattern)) && CaptureCount(Pieces(pattern)) <= MAX_PATH_PARAMETERS
  }

  predicate IsDynamic(pattern: string)
    requires Rooted(pattern)
  {
    EndsOpen(Pieces(pattern)) || CaptureCount(Pieces(pattern)) > 0
  }

  // ---------------------------------------------------------- laws of the meaning

  /** A path is its pieces. */
  lemma PathOfPieces(path: string)
    requires Rooted(path)
    ensures path == [SLASH] + Join(Pieces(path), SLASH)
  {
    JoinSplit(path[1..], SLASH);
  }

  lemma {:induction false} NoCaptures(segments: seq<string>, i: nat)
    requires CaptureCount(segments) == 0 && i < |segments|
    ensures !IsCapture(segments[i])
    decreases |segments|
  {
    if i < |segments| - 1 {
      NoCaptures(segments[..|segments| - 1], i);
    }
  }

  /** A pattern without captures and wildcard matches exactly itself: the exact index loses nothing. */
  lemma LiteralMatchIsEquality(pattern: string, path: string)
    requires Rooted(pattern) && !IsDynamic(pattern)
    ensures Matches(pattern, path) <==> path == pattern
    ensures Matches(pattern, path) ==> Captures(pattern, path) == []
  {
    var segments := Pieces(pattern);
    forall i | 0 <= i < |segments| ensures !IsCapture(segments[i]) { NoCaptures(segments, i); }
    if Matches(pattern, path) {
      assert Pieces(path) == segments;
      PathOfPieces(pattern);
      PathOfPieces(path);
      NothingCaptured(segments, Pieces(path), |segments|);
    }
  }

  lemma {:induction false} NothingCaptured(segments: seq<string>, pieces: seq<string>, n: nat)
    requires n <= |segments| && n <= |pieces| && forall i :: 0 <= i < n ==> !IsCapture(segments[i])
    ensures CapturesTo(segments, pieces, n) == []
  {
    if n > 0 { NothingCaptured(segments, pieces, n - 1); }
  }

  /** The first `n` segments with the captured values put in for the captures. */
  function FillIn(segments: seq<string>, captures: seq<(string, string)>): seq<string> {
    if segments == [] then []
    else
      var init, last := segments[..|segments| - 1], segments[|segments| - 1];
      if !IsCapture(last) then FillIn(init, captures) + [last]
      else if captures == [] then FillIn(init, captures) + [""]
      else FillIn(init, captures[..|captures| - 1]) + [captures[|captures| - 1].1]
  }

  lemma {:induction false} FillInRebuilds(segments: seq<string>, pieces: seq<string>, n: nat)
    requires n <= |segments| && SegmentsValid(segments) && MatchesTo(segments, pieces, n)
    ensures FillIn(segments[..n], CapturesTo(segments, pieces, n)) == pieces[..n]
  {
    if n > 0 {
      FillInRebuilds(segments, pieces, n - 1);
      var captures := CapturesTo(segments, pieces, n);
      assert segments[..n][..n - 1] == segments[..n - 1];
      assert pieces[..n] == pieces[..n - 1] + [pieces[n - 1]];
      assert segments[..n][n - 1] == segments[n - 1];
      ValidAt(segments, |segments|, n - 1);
      KindTellsCapture(segments[n - 1], n - 1 == |segments| - 1);
      if IsCapture(segments[n - 1]) {
        assert captures[..|captures| - 1] == CapturesTo(segments, pieces, n - 1);
      } else {
        assert captures == CapturesTo(segments, pieces, n - 1);
      }
    }
  }

  /** Captures put back into a pattern rebuild the path; with a wildcard they rebuild the path's start. */
  lemma CapturesRebuildPath(pattern: string, path: string)
    requires ValidPattern(pattern) && Matches(pattern, path)
    ensures var (segments, filled) := (Pieces(pattern), FillIn(Pieces(pattern)[..Fixed(Pieces(pattern))], Captures(pattern, path)));
            && filled <= Pieces(path)
            && (!EndsOpen(segments) ==> filled == Pieces(path) && path == [SLASH] + Join(Pieces(path), SLASH))
  {
    var segments := Pieces(pattern);
    FillInRebuilds(segments, Pieces(path), Fixed(segments));
    PathOfPieces(path);
  }

  lemma {:induction false} CapturesAreCounted(segments: seq<string>, pieces: seq<string>, n: nat)
    requires n <= |segments| && n <= |pieces| && SegmentsValid(segments)
    ensures |CapturesTo(segments, pieces, n)| == CaptureCount(segments[..n])
  {
    if n > 0 {
      CapturesAreCounted(segments, pieces, n - 1);
      assert segments[..n][..n - 1] == segments[..n - 1];
      ValidAt(segments, |segments|, n - 1);
    }
  }

  lemma {:induction false} CaptureCountGrows(segments: seq<string>, n: nat)
    requires n <= |segments|
    ensures CaptureCount(segments[..n]) <= CaptureCount(segments)
    decreases |segments|
  {
    if n == |segments| {
      assert segments[..n] == segments;
    } else {
      CaptureCountGrows(segments[..|segments| - 1], n);
      assert segments[..|segments| - 1][..n] == segments[..n];
    }
  }

  // --------------------------------------------------------- walking the segments

  /** The piece that starts at `cursor` and the rest behind its slash. */
  lemma {:induction false} PiecesFrom(s: string, cursor: nat)
    requires cursor <= |s|
    ensures var slash := Find(s, SLASH, cursor);
            Split(s[cursor..], SLASH) ==
            if slash == |s| then [s[cursor..]] else [s[cursor..slash]] + Split(s[slash + 1..], SLASH)
  {
    var (t, slash) := (s[cursor..], Find(s, SLASH, cursor));
    var at := Find(t, SLASH);
    assert forall i :: 0 <= i < |t| ==> t[i] == s[cursor + i];
    if at < |t| { assert s[cursor + at] == SLASH; }
    if slash < |s| { assert t[slash - cursor] == SLASH; }
    assert cursor + at == slash;
    if at < |t| {
      assert t[..at] == s[cursor..slash];
      assert t[at + 1..] == s[slash + 1..];
    }
  }

  lemma CountSnoc(segments: seq<string>, k: nat)
    requires k < |segments|
    ensures CaptureCount(segments[..k + 1]) == CaptureCount(segments[..k]) + if IsCapture(segments[k]) then 1 else 0
  {
    assert segments[..k + 1][..k] == segments[..k];
  }

  lemma KindTellsCapture(segment: string, isFinal: bool)
    requires ClassifySegment(segment, isFinal) != Invalid
    ensures ClassifySegment(segment, isFinal) == Parameter <==> IsCapture(segment)
    ensures ClassifySegment(segment, isFinal) == Parameter ==> |segment| >= 3
    ensures ClassifySegment(segment, isFinal) == Wildcard <==> segment == "*"
  {}

  /** One step of a walk over the segments of a pattern. */
  lemma SegmentStep(pattern: string, segments: seq<string>, k: nat, cursor: nat)
    requires Rooted(pattern) && segments == Pieces(pattern) && 1 <= cursor <= |pattern|
    requires k < |segments| && segments[k..] == Split(pattern[cursor..], SLASH)
    ensures var slash := Find(pattern, SLASH, cursor);
            && segments[k] == pattern[cursor..slash]
            && (slash == |pattern| <==> k == |segments| - 1)
            && (slash < |pattern| ==> segments[k + 1..] == Split(pattern[slash + 1..], SLASH))
  {
    PiecesFrom(pattern, cursor);
    assert segments[k..][1..] == segments[k + 1..];
  }

  /** `k` segments of a pattern were walked and the next starts at `cursor`. */
  ghost predicate At(pattern: string, segments: seq<string>, k: nat, cursor: nat) {
    && Rooted(pattern) && segments == Pieces(pattern) && 1 <= cursor <= |pattern|
    && k < |segments| && segments[k..] == Split(pattern[cursor..], SLASH)
  }

  method NextSegment(pattern: string, cursor: nat, ghost segments: seq<string>, ghost k: nat)
    returns (piece: string, kind: SegmentKind, slash: nat)
    requires At(pattern, segments, k, cursor)
    ensures cursor <= slash <= |pattern| && (slash == |pattern| <==> k == |segments| - 1)
    ensures piece == segments[k] && KindIs(segments, k, kind)
    ensures slash < |pattern| ==> At(pattern, segments, k + 1, slash + 1)
    ensures kind != Invalid ==> (kind == Parameter <==> IsCapture(piece)) && (kind == Wildcard <==> piece == "*")
    ensures kind == Parameter ==> |piece| >= 3
    ensures CaptureCount(segments[..k + 1]) == CaptureCount(segments[..k]) + if IsCapture(piece) then 1 else 0
    ensures CaptureCount(segments[..k + 1]) <= CaptureCount(segments)
  {
    slash := Find(pattern, SLASH, cursor);
    SegmentStep(pattern, segments, k, cursor);
    piece := pattern[cursor..slash];
    kind := ClassifySegment(piece, slash == |pattern|);
    if kind != Invalid { KindTellsCapture(piece, slash == |pattern|); }
    CountSnoc(segments, k);
    CaptureCountGrows(segments, k + 1);
  }

  /** One segment of the validating loop. */
  method ValidNext(pattern: string, cursor: nat, count: nat, ghost segments: seq<string>, ghost k: nat)
    returns (ok: bool, count': nat, slash: nat)
    requires At(pattern, segments, k, cursor) && ValidTo(segments, k) && count == CaptureCount(segments[..k])
    ensures cursor <= slash <= |pattern| && (slash == |pattern| <==> k == |segments| - 1)
    ensures slash < |pattern| ==> At(pattern, segments, k + 1, slash + 1)
    ensures if ok then ValidTo(segments, k + 1) && count' == CaptureCount(segments[..k + 1]) <= MAX_PATH_PARAMETERS
            else !SegmentsValid(segments) || CaptureCount(segments) > MAX_PATH_PARAMETERS
    ensures ok && slash == |pattern| ==> SegmentsValid(segments) && CaptureCount(segments) <= MAX_PATH_PARAMETERS
  {
    assert k == |segments| - 1 ==> segments[..k + 1] == segments;
    var piece, kind;
    piece, kind, slash := NextSegment(pattern, cursor, segments, k);
    count' := count;
    if kind == Invalid {
      if SegmentsValid(segments) { ValidAt(segments, |segments|, k); }
      return false, count', slash;
    }
    if kind == Parameter {
      count' := count + 1;
    }
    return count' <= MAX_PATH_PARAMETERS, count', slash;
  }

  /** `is_valid_route_pattern`: its cursor loop decides `ValidPattern`. */
  method IsValidRoutePattern(pattern: string) returns (ok: bool)
    ensures ok <==> ValidPattern(pattern)
  {
    if pattern == "" || pattern[0] != SLASH { return false; }
    ghost var segments := Pieces(pattern);
    ghost var k := 0;
    var count: nat, cursor := 0, 1;
    while true
      invariant At(pattern, segments, k, cursor)
      invariant count == CaptureCount(segments[..k]) <= MAX_PATH_PARAMETERS && ValidTo(segments, k)
      decreases |pattern| - cursor
    {
      var slash;
      ok, count, slash := ValidNext(pattern, cursor, count, segments, k);
      if !ok { return; }
      if slash == |pattern| { break; }
      k, cursor := k + 1, slash + 1;
    }
  }

  // ------------------------------------------------------------------ compilation

  datatype Segment = Text(literal: string) | Capture(name: string)

  function CompileSegment(segment: string): Segment {
    if IsCapture(segment) && |segment| >= 2 then Capture(CaptureName(segment)) else Text(segment)
  }

  function CompiledTo(segments: seq<string>, n: nat): (r: seq<Segment>)
    requires n <= |segments|
    ensures |r| == n
  {
    if n == 0 then [] else CompiledTo(segments, n - 1) + [CompileSegment(segments[n - 1])]
  }

  lemma {:induction false} CompiledAt(segments: seq<string>, n: nat, i: nat)
    requires i < n <= |segments|
    ensures CompiledTo(segments, n)[i] == CompileSegment(segments[i])
  {
    if i < n - 1 { CompiledAt(segments, n - 1, i); }
  }

  /** The compiled form: one entry for each segment that constrains a piece. */
  function Compiled(segments: seq<string>): seq<Segment> { CompiledTo(segments, Fixed(segments)) }

  /** Where a valid pattern's segments may be of which kind. */
  lemma ValidKinds(segments: seq<string>, k: nat, kind: SegmentKind)
    requires SegmentsValid(segments) && k < |segments| && KindIs(segments, k, kind)
    ensures kind != Invalid && (kind == Wildcard ==> k == |segments| - 1)
    ensures Fixed(segments) == if kind == Wildcard then k else Fixed(segments)
    ensures k == |segments| - 1 ==> (EndsOpen(segments) <==> kind == Wildcard)
  {
    ValidAt(segments, |segments|, k);
  }

  /** The entry of a segment that is no wildcard. */
  method CompilePiece(piece: string, kind: SegmentKind) returns (segment: Segment)
    requires (kind == Parameter <==> IsCapture(piece)) && (kind == Parameter ==> |piece| >= 3)
    ensures segment == CompileSegment(piece)
  {
    if kind == Parameter {
      segment := Capture(piece[1..|piece| - 1]);
    } else {
      segment := Text(piece);
    }
  }

  /** One segment of the compiling loop. */
  method CompileNext(pattern: string, cursor: nat, compiled: seq<Segment>, count: nat, ghost segments: seq<string>, ghost k: nat)
    returns (compiled': seq<Segment>, count': nat, isWildcard: bool, slash: nat)
    requires At(pattern, segments, k, cursor) && SegmentsValid(segments)
    requires compiled == CompiledTo(segments, k) && count == CaptureCount(segments[..k])
    ensures cursor <= slash <= |pattern| && (slash == |pattern| <==> k == |segments| - 1)
    ensures slash < |pattern| ==>
              At(pattern, segments, k + 1, slash + 1) && compiled' == CompiledTo(segments, k + 1) && count' == CaptureCount(segments[..k + 1])
    ensures slash == |pattern| ==>
              compiled' == Compiled(segments) && count' == CaptureCount(segments) && (isWildcard <==> EndsOpen(segments))
  {
    assert k == |segments| - 1 ==> segments[..k + 1] == segments;
    var piece, kind;
    piece, kind, slash := NextSegment(pattern, cursor, segments, k);
    ValidKinds(segments, k, kind);
    isWildcard := kind == Wildcard;
    compiled', count' := compiled, count;
    if !isWildcard {
      var segment := CompilePiece(piece, kind);
      compiled' := compiled + [segment];
      count' := count + if kind == Parameter then 1 else 0;
    }
  }

  method CompileSegments(pattern: string) returns (compiled: seq<Segment>, hasWildcard: bool, count: nat)
    requires ValidPattern(pattern)
    ensures compiled == Compiled(Pieces(pattern))
    ensures hasWildcard <==> EndsOpen(Pieces(pattern))
    ensures count == CaptureCount(Pieces(pattern))
  {
    ghost var segments := Pieces(pattern);
    ghost var k := 0;
    var cursor, slash := 1, 0;
    compiled, hasWildcard, count := [], false, 0;
    while true
      invariant At(pattern, segments, k, cursor)
      invariant compiled == CompiledTo(segments, k) && count == CaptureCount(segments[..k])
      decreases |pattern| - cursor
    {
      compiled, count, hasWildcard, slash := CompileNext(pattern, cursor, compiled, count, segments, k);
      if slash == |pattern| { break; }
      k, cursor := k + 1, slash + 1;
    }
  }

  // --------------------------------------------------------------------- matching

  /** The part of a path that its pieces from `k` on make up. */
  ghost predicate Remaining(path: string, k: nat, remaining: string)
    requires Rooted(path)
  {
    && k <= |Pieces(path)|
    && if k == |Pieces(path)| then remaining == "" else Rooted(remaining) && Pieces(remaining) == Pieces(path)[k..]
  }

  lemma PieceStep(path: string, k: nat, remaining: string)
    requires Rooted(path) && Remaining(path, k, remaining) && remaining != ""
    ensures var tail := remaining[1..];
            var slash := Find(tail, SLASH);
            k < |Pieces(path)| && Pieces(path)[k] == tail[..slash] && Remaining(path, k + 1, tail[slash..])
  {
    var pieces, tail := Pieces(path), remaining[1..];
    var slash := Find(tail, SLASH);
    assert pieces[k..][1..] == pieces[k + 1..];
    if slash < |tail| {
      assert tail[slash..][1..] == tail[slash + 1..];
    }
  }

  /** The segments matched so far are those of the declarative match. */
  lemma MatchStep(segments: seq<string>, pieces: seq<string>, k: nat)
    requires k < Fixed(segments) && k < |pieces| && SegmentsValid(segments) && MatchesTo(segments, pieces, k)
    ensures match CompileSegment(segments[k])
            case Capture(name) =>
              && (MatchesTo(segments, pieces, k + 1) <==> pieces[k] != "")
              && CapturesTo(segments, pieces, k + 1) == CapturesTo(segments, pieces, k) + [(name, pieces[k])]
            case Text(literal) =>
              && (MatchesTo(segments, pieces, k + 1) <==> pieces[k] == literal)
              && CapturesTo(segments, pieces, k + 1) == CapturesTo(segments, pieces, k)
  {
    ValidAt(segments, |segments|, k);
    KindTellsCapture(segments[k], k == |segments| - 1);
    assert SegmentMatches(segments[k], pieces[k]) ==> MatchesTo(segments, pieces, k + 1);
  }

  lemma MatchesLess(segments: seq<string>, pieces: seq<string>, k: nat)
    requires k <= Fixed(segments) && !MatchesTo(segments, pieces, k)
    ensures !MatchesTo(segments, pieces, Fixed(segments))
  {}

  /** What the walk knows before segment `k`; a path that does not start with a slash gets no further than the first. */
  ghost predicate Walked(segments: seq<string>, path: string, k: nat, remaining: string, found: seq<(string, string)>)
    requires k <= |segments|
  {
    if Rooted(path) then
      Remaining(path, k, remaining) && MatchesTo(segments, Pieces(path), k) && found == CapturesTo(segments, Pieces(path), k)
    else k == 0 && remaining == path && found == []
  }

  /** One segment of the walk: no match, or the captures and the rest of the path behind it. */
  method WalkSegment(segment: Segment, remaining: string, found: seq<(string, string)>, ghost pattern: string, ghost path: string, ghost k: nat)
    returns (ok: bool, captures: seq<(string, string)>, rest: string)
    requires ValidPattern(pattern) && k < Fixed(Pieces(pattern)) && segment == CompileSegment(Pieces(pattern)[k])
    requires Walked(Pieces(pattern), path, k, remaining, found)
    ensures ok ==> Walked(Pieces(pattern), path, k + 1, rest, captures)
    ensures !ok ==> !Matches(pattern, path)
  {
    if remaining == "" || remaining[0] != SLASH { return false, found, remaining; }
    ghost var segments, pieces := Pieces(pattern), Pieces(path);
    PieceStep(path, k, remaining);
    MatchStep(segments, pieces, k);
    if !MatchesTo(segments, pieces, k + 1) { MatchesLess(segments, pieces, k + 1); }
    var tail := remaining[1..];
    var slash := Find(tail, SLASH);
    var piece := tail[..slash];
    match segment {
      case Capture(name) =>
        return piece != "", found + [(name, piece)], tail[slash..];
      case Text(literal) =>
        return piece == literal, found, tail[slash..];
    }
  }

  /** The walk over compiled segments decides the declarative match and finds its captures. */
  method MatchCompiled(compiled: seq<Segment>, hasWildcard: bool, path: string, ghost pattern: string)
    returns (captures: Option<seq<(string, string)>>)
    requires ValidPattern(pattern) && IsDynamic(pattern)
    requires compiled == Compiled(Pieces(pattern)) && (hasWildcard <==> EndsOpen(Pieces(pattern)))
    ensures captures == if Matches(pattern, path) then Some(Captures(pattern, path)) else None
    ensures captures.Some? ==> |captures.value| <= MAX_PATH_PARAMETERS
  {
    ghost var segments := Pieces(pattern);
    var found: seq<(string, string)>, remaining := [], path;
    for k := 0 to |compiled|
      invariant Walked(segments, path, k, remaining, found)
    {
      var ok;
      CompiledAt(segments, |compiled|, k);
      ok, found, remaining := WalkSegment(compiled[k], remaining, found, pattern, path, k);
      if !ok { return None; }
    }
    if Rooted(path) {
      CapturesAreCounted(segments, Pieces(path), |compiled|);
      CaptureCountGrows(segments, |compiled|);
    }
    if hasWildcard {
      return if remaining != "" && remaining[0] == SLASH then Some(found) else None;
    }
    return if remaining == "" then Some(found) else None;
  }
}
