/**
 Which registrations can ever answer a request (src/router.cpp). A registration is
 tried against finitely many shapes of path: it answers some parsed request exactly
 when one of its shapes is left to it by the registrations that come before it.
 */
module Reachability {
  import opened Text
  import opened RoutePatterns
  import opened Messages
  import opened Routing
  import opened RequestPaths
  import RequestParsing

  // ----------------------------------------------------------------------- shapes

  /** One piece of a path: a text that no pattern mentions, or this one. */
  datatype Piece = Own | Given(text: string)

  /** What a pattern asks for, piece by piece, and these further pieces. */
  function Shape(segments: seq<string>, tail: seq<Piece>): (r: seq<Piece>)
    ensures |r| == Fixed(segments) + |tail|
  {
    seq(Fixed(segments), k requires 0 <= k < Fixed(segments) => if IsCapture(segments[k]) then Own else Given(segments[k])) + tail
  }

  predicate PieceTaken(a: string, piece: Piece) {
    if IsCapture(a) then piece != Given("") else piece == Given(a)
  }

  /** The segments take every path of this shape; see `TakenIsMatched`. */
  predicate ShapeTaken(a: seq<string>, shape: seq<Piece>) {
    && Fixed(a) <= |shape|
    && (forall k :: 0 <= k < Fixed(a) ==> PieceTaken(a[k], shape[k]))
    && (if EndsOpen(a) then |shape| >= |a| else |shape| == |a|)
  }

  predicate Sliced(shape: seq<Piece>) {
    shape != [] && forall k :: 0 <= k < |shape| && shape[k].Given? ==> SLASH !in shape[k].text
  }

  function Write(piece: Piece, own: string): string { if piece.Own? then own else piece.text }

  function Written(shape: seq<Piece>, own: string): (r: seq<string>)
    ensures |r| == |shape|
  {
    seq(|shape|, k requires 0 <= k < |shape| => Write(shape[k], own))
  }

  /** The path of this shape with one text for all that no pattern mentions. */
  function PathOf(shape: seq<Piece>, own: string): (path: string)
    requires shape != []
    ensures Rooted(path)
  {
    [SLASH] + Join(Written(shape, own), SLASH)
  }

  /** A text is its own against a pattern when it is none of its segments. */
  predicate OwnAgainst(own: string, p: string)
    requires Rooted(p)
  {
    own != "" && SLASH !in own && own !in Pieces(p)
  }

  lemma PathReads(shape: seq<Piece>, own: string)
    requires Sliced(shape) && SLASH !in own
    ensures Pieces(PathOf(shape, own)) == Written(shape, own)
  {
    SplitJoin(Written(shape, own), SLASH);
    assert PathOf(shape, own)[1..] == Join(Written(shape, own), SLASH);
  }

  /** A pattern takes a shape exactly when it matches the path of that shape. */
  lemma TakenIsMatched(p: string, shape: seq<Piece>, own: string)
    requires Rooted(p) && OwnAgainst(own, p) && Sliced(shape)
    ensures Matches(p, PathOf(shape, own)) <==> ShapeTaken(Pieces(p), shape)
  {
    PathReads(shape, own);
    var (a, pieces) := (Pieces(p), Written(shape, own));
    forall k | 0 <= k < Fixed(a) && k < |shape|
      ensures SegmentMatches(a[k], pieces[k]) <==> PieceTaken(a[k], shape[k])
    {
      assert a[k] in a;
    }
  }

  /** The pieces have this shape. */
  predicate HasShape(pieces: seq<string>, shape: seq<Piece>) {
    |pieces| == |shape| && forall k :: 0 <= k < |shape| ==> if shape[k].Own? then pieces[k] != "" else pieces[k] == shape[k].text
  }

  lemma TakenMatches(p: string, shape: seq<Piece>, path: string)
    requires Rooted(p) && Rooted(path) && ShapeTaken(Pieces(p), shape) && HasShape(Pieces(path), shape)
    ensures Matches(p, path)
  {
    var (a, pieces) := (Pieces(p), Pieces(path));
    forall k | 0 <= k < Fixed(a) ensures SegmentMatches(a[k], pieces[k]) {
      assert PieceTaken(a[k], shape[k]);
    }
  }

  // -------------------------------------------------------------- shapes of requests

  /** What a wildcard may take of a request's path: `n` pieces, the last of which may be empty. */
  function Tail(n: nat, slash: bool): (r: seq<Piece>)
    requires n > 0
    ensures |r| == n
  {
    seq(n - 1, _ => Own) + [if slash then Given("") else Own]
  }

  /** A longer tail makes no difference to segments that are fewer. */
  lemma TakenLonger(a: seq<string>, segments: seq<string>, n: nat, slash: bool, m: nat, slash': bool)
    requires |a| < n <= m && ShapeTaken(a, Shape(segments, Tail(n, slash)))
    ensures ShapeTaken(a, Shape(segments, Tail(m, slash')))
  {
    var (short, long) := (Shape(segments, Tail(n, slash)), Shape(segments, Tail(m, slash')));
    forall k | 0 <= k < Fixed(a) ensures PieceTaken(a[k], long[k]) {
      assert PieceTaken(a[k], short[k]) && short[k] == long[k];
    }
  }

  /** A literal segment that a request's path can hold. */
  predicate PlainLiteral(s: string) { forall k :: 0 <= k < |s| ==> IsPathCharacter(s[k]) && s[k] != '%' && s[k] != '\\' }

  predicate PlainLiterals(segments: seq<string>) {
    forall k :: 0 <= k < Fixed(segments) && !IsCapture(segments[k]) ==> PlainLiteral(segments[k])
  }

  lemma {:induction false} PlainSegments(pieces: seq<string>)
    requires pieces != []
    ensures RequestParsing.SegmentsArePlain(pieces) <==>
            forall k :: 0 <= k < |pieces| ==>
              RequestParsing.SegmentIsPlain(pieces[k]) || (k == |pieces| - 1 && pieces[k] == "")
  {
    if |pieces| > 1 {
      PlainSegments(pieces[1..]);
      assert forall k :: 0 < k < |pieces| ==> pieces[k] == pieces[1..][k - 1];
    }
  }

  /** A character that a canonical path may hold. */
  predicate Good(c: char) { IsPathCharacter(c) && c != '\\' }

  predicate AllGood(s: string) { forall k :: 0 <= k < |s| ==> Good(s[k]) }

  lemma {:induction false} JoinIsGood(pieces: seq<string>)
    requires pieces != []
    ensures AllGood(Join(pieces, SLASH)) <==> forall k :: 0 <= k < |pieces| ==> AllGood(pieces[k])
  {
    if |pieces| > 1 {
      var (first, rest) := (pieces[0], Join(pieces[1..], SLASH));
      JoinIsGood(pieces[1..]);
      assert forall k :: 0 < k < |pieces| ==> pieces[k] == pieces[1..][k - 1];
      GoodSum(first, [SLASH] + rest);
      GoodSum([SLASH], rest);
      assert first + ([SLASH] + rest) == Join(pieces, SLASH);
    }
  }

  lemma GoodSum(a: string, b: string)
    ensures AllGood(a + b) <==> AllGood(a) && AllGood(b)
  {
    if AllGood(a + b) {
      assert forall k :: 0 <= k < |a| ==> a[k] == (a + b)[k];
      assert forall k :: 0 <= k < |b| ==> b[k] == (a + b)[|a| + k];
    }
  }

  /** Requestable paths, piece by piece. */
  lemma RequestablePieces(path: string)
    requires Rooted(path)
    ensures Requestable(path) <==>
            RequestParsing.SegmentsArePlain(Pieces(path)) && forall k :: 0 <= k < |Pieces(path)| ==> AllGood(Pieces(path)[k])
  {
    PathOfPieces(path);
    GoodSum([SLASH], Join(Pieces(path), SLASH));
    JoinIsGood(Pieces(path));
    assert AllGood(path) <==> AllPath(path) && '\\' !in path;
  }

  /** A requestable path that a pattern matches has one of its shapes. */
  lemma RequestHasShape(p: string, path: string) returns (tail: seq<Piece>, n: nat, slash: bool)
    requires ValidPattern(p) && Matches(p, path) && Requestable(path)
    ensures HasShape(Pieces(path), Shape(Pieces(p), tail))
    ensures if EndsOpen(Pieces(p)) then n > 0 && tail == Tail(n, slash) else tail == []
  {
    var (segments, pieces) := (Pieces(p), Pieces(path));
    PlainSegments(pieces);
    n, slash := |pieces| - Fixed(segments), pieces[|pieces| - 1] == "";
    tail := if EndsOpen(segments) then Tail(n, slash) else [];
    var shape := Shape(segments, tail);
    forall k | 0 <= k < |shape| ensures if shape[k].Own? then pieces[k] != "" else pieces[k] == shape[k].text {
      if k < Fixed(segments) { assert SegmentMatches(segments[k], pieces[k]); }
    }
  }

  /** And its literal segments are plain. */
  lemma RequestHasPlainLiterals(p: string, path: string)
    requires ValidPattern(p) && Matches(p, path) && Requestable(path)
    ensures PlainLiterals(Pieces(p))
  {
    var (segments, pieces) := (Pieces(p), Pieces(path));
    RequestablePieces(path);
    PlainSegments(pieces);
    forall k | 0 <= k < Fixed(segments) && !IsCapture(segments[k]) ensures PlainLiteral(segments[k]) {
      assert SegmentMatches(segments[k], pieces[k]) && AllGood(pieces[k]);
    }
  }

  predicate PlainOwn(own: string) { |own| > 2 && SLASH !in own && AllGood(own) && '%' !in own }

  /** The other way round: every shape of a pattern with plain literals is that of a requestable path. */
  lemma ShapeIsRequestable(p: string, tail: seq<Piece>, n: nat, slash: bool, own: string)
    requires ValidPattern(p) && PlainLiterals(Pieces(p)) && PlainOwn(own)
    requires if EndsOpen(Pieces(p)) then n > 0 && tail == Tail(n, slash) else tail == []
    ensures Sliced(Shape(Pieces(p), tail)) && Requestable(PathOf(Shape(Pieces(p), tail), own))
    ensures Matches(p, PathOf(Shape(Pieces(p), tail), own))
  {
    var (segments, shape) := (Pieces(p), Shape(Pieces(p), tail));
    assert Sliced(shape);
    PathReads(shape, own);
    var pieces := Written(shape, own);
    forall k | 0 <= k < |pieces|
      ensures AllGood(pieces[k]) && (RequestParsing.SegmentIsPlain(pieces[k]) || (k == |pieces| - 1 && pieces[k] == ""))
    {
      if k < Fixed(segments) { FixedPieceIsPlain(segments, k, own); }
    }
    PlainSegments(pieces);
    RequestablePieces(PathOf(shape, own));
  }

  lemma FixedPieceIsPlain(segments: seq<string>, k: nat, own: string)
    requires SegmentsValid(segments) && PlainLiterals(segments) && PlainOwn(own) && k < Fixed(segments)
    ensures var piece := if IsCapture(segments[k]) then own else segments[k];
            AllGood(piece) && (RequestParsing.SegmentIsPlain(piece) || (k == |segments| - 1 && piece == ""))
  {
    ValidAt(segments, |segments|, k);
  }

  // ------------------------------------------------------------------- own texts

  lemma {:induction false} PieceIsShorter(s: string, c: char, k: nat)
    requires k < |Split(s, c)|
    ensures |Split(s, c)[k]| <= |s|
  {
    var at := Find(s, c);
    if k > 0 { PieceIsShorter(s[at + 1..], c, k - 1); }
  }

  lemma {:induction false} PiecesAreFew(s: string, c: char)
    ensures |Split(s, c)| <= |s| + 1
  {
    var at := Find(s, c);
    if at < |s| { PiecesAreFew(s[at + 1..], c); }
  }

  function Longest(routes: seq<Route>): (n: nat)
    ensures forall i :: 0 <= i < |routes| ==> |routes[i].pattern| <= n
  {
    if routes == [] then 0
    else
      var (init, last) := (routes[..|routes| - 1], |routes[|routes| - 1].pattern|);
      assert forall i :: 0 <= i < |init| ==> init[i] == routes[i];
      if Longest(init) < last then last else Longest(init)
  }

  lemma OwnWord(n: nat) returns (own: string)
    ensures |own| == n && SLASH !in own && AllGood(own) && '%' !in own
  {
    own := seq(n, _ => 'x');
  }

  lemma NotASegment(own: string, p: string)
    requires Rooted(p) && |own| > |p| && SLASH !in own
    ensures OwnAgainst(own, p)
  {
    forall k | 0 <= k < |Pieces(p)| ensures Pieces(p)[k] != own {
      PieceIsShorter(p[1..], SLASH, k);
    }
  }

  /** A text longer than any registered pattern is none of their segments. */
  lemma OwnText(t: Table) returns (own: string)
    requires TableOk(t)
    ensures PlainOwn(own) && forall j :: 0 <= j < |t.routes| ==> OwnAgainst(own, t.routes[j].pattern)
  {
    own := OwnWord(Longest(t.routes) + 3);
    forall j | 0 <= j < |t.routes| ensures OwnAgainst(own, t.routes[j].pattern) {
      NotASegment(own, t.routes[j].pattern);
    }
  }

  // --------------------------------------------------------------------- theorems

  /** Route `i` is what answers this method on this path. */
  ghost predicate Answers(t: Table, i: nat, path: string, verb: Method)
    requires TableOk(t)
  {
    Takes(t, i, path, verb) && Right(t, path, verb, Handled(i, Captures(t.routes[i].pattern, path)))
  }

  /** Some request that the parser accepts is answered by route `i`. */
  ghost predicate AnswersSomeRequest(t: Table, i: nat, verb: Method)
    requires TableOk(t)
  {
    exists path :: Carried(verb, path) && Answers(t, i, path, verb)
  }

  /** Route `j` has the method and is asked before route `i`. */
  predicate Before(t: Table, j: nat, i: nat, verb: Method)
    requires TableOk(t) && i < |t.routes|
  {
    j < |t.routes| && j != i && verb in t.routes[j].methods && Precedes(t, j, i)
  }

  /** No route that is asked before takes this shape of route `i`. */
  predicate Free(t: Table, i: nat, verb: Method, tail: seq<Piece>)
    requires TableOk(t) && i < |t.routes|
  {
    forall j: nat {:trigger Before(t, j, i, verb)} | j < |t.routes| ::
      Before(t, j, i, verb) ==> !ShapeTaken(Pieces(t.routes[j].pattern), Shape(Pieces(t.routes[i].pattern), tail))
  }

  /** One of finitely many shapes is free, and a request can hold the pattern's literals. */
  predicate Reachable(t: Table, i: nat, verb: Method)
    requires TableOk(t) && i < |t.routes|
  {
    && PlainLiterals(Pieces(t.routes[i].pattern))
    && if EndsOpen(Pieces(t.routes[i].pattern)) then
         exists n, slash :: 1 <= n <= Longest(t.routes) + 1 && Free(t, i, verb, Tail(n, slash))
       else Free(t, i, verb, [])
  }

  lemma FreeShapeAnswers(t: Table, i: nat, verb: Method, tail: seq<Piece>, n: nat, slash: bool) returns (path: string)
    requires TableOk(t) && i < |t.routes| && verb in t.routes[i].methods
    requires PlainLiterals(Pieces(t.routes[i].pattern)) && Free(t, i, verb, tail)
    requires if EndsOpen(Pieces(t.routes[i].pattern)) then n > 0 && tail == Tail(n, slash) else tail == []
    ensures Requestable(path) && Answers(t, i, path, verb)
  {
    var own := OwnText(t);
    var shape := Shape(Pieces(t.routes[i].pattern), tail);
    ShapeIsRequestable(t.routes[i].pattern, tail, n, slash, own);
    path := PathOf(shape, own);
    forall j: nat | Takes(t, j, path, verb) ensures Precedes(t, i, j) { FreeGoesFirst(t, i, verb, tail, own, j); }
  }

  lemma FreeGoesFirst(t: Table, i: nat, verb: Method, tail: seq<Piece>, own: string, j: nat)
    requires TableOk(t) && i < |t.routes| && Free(t, i, verb, tail) && Sliced(Shape(Pieces(t.routes[i].pattern), tail))
    requires j < |t.routes| && OwnAgainst(own, t.routes[j].pattern)
    requires Takes(t, j, PathOf(Shape(Pieces(t.routes[i].pattern), tail), own), verb)
    ensures Precedes(t, i, j)
  {
    TakenIsMatched(t.routes[j].pattern, Shape(Pieces(t.routes[i].pattern), tail), own);
    assert Before(t, j, i, verb) || Precedes(t, i, j);
  }

  /** What answers a request leaves the shape of its path free. */
  lemma AnsweredShapeIsFree(t: Table, i: nat, verb: Method, path: string, tail: seq<Piece>)
    requires TableOk(t) && i < |t.routes| && Answers(t, i, path, verb)
    requires HasShape(Pieces(path), Shape(Pieces(t.routes[i].pattern), tail))
    ensures Free(t, i, verb, tail)
  {
    var shape := Shape(Pieces(t.routes[i].pattern), tail);
    forall j: nat | j < |t.routes| && Before(t, j, i, verb) ensures !ShapeTaken(Pieces(t.routes[j].pattern), shape) {
      if ShapeTaken(Pieces(t.routes[j].pattern), shape) {
        TakenMatches(t.routes[j].pattern, shape, path);
        assert Takes(t, j, path, verb);
      }
    }
  }

  /** A free tail of any length has a free one that is no longer than the patterns. */
  lemma FreeShortens(t: Table, i: nat, verb: Method, m: nat, slash: bool) returns (n: nat)
    requires TableOk(t) && i < |t.routes| && m > 0 && Free(t, i, verb, Tail(m, slash))
    ensures 1 <= n <= Longest(t.routes) + 1 && Free(t, i, verb, Tail(n, slash))
  {
    n := if m <= Longest(t.routes) + 1 then m else Longest(t.routes) + 1;
    var segments := Pieces(t.routes[i].pattern);
    if n < m {
      forall j: nat | j < |t.routes| && Before(t, j, i, verb)
        ensures !ShapeTaken(Pieces(t.routes[j].pattern), Shape(segments, Tail(n, slash)))
      {
        PiecesAreFew(t.routes[j].pattern[1..], SLASH);
        if ShapeTaken(Pieces(t.routes[j].pattern), Shape(segments, Tail(n, slash))) {
          TakenLonger(Pieces(t.routes[j].pattern), segments, n, slash, m, slash);
        }
      }
    }
  }

  lemma AnswererIsReachable(t: Table, i: nat, verb: Method, path: string)
    requires TableOk(t) && i < |t.routes| && Requestable(path) && Answers(t, i, path, verb)
    ensures Reachable(t, i, verb)
  {
    var p := t.routes[i].pattern;
    var tail, m, slash := RequestHasShape(p, path);
    RequestHasPlainLiterals(p, path);
    AnsweredShapeIsFree(t, i, verb, path, tail);
    if EndsOpen(Pieces(p)) {
      var n := FreeShortens(t, i, verb, m, slash);
    }
  }

  /** A registration answers some request that the parser accepts exactly when its literals are plain and one of its
      finitely many shapes is taken by no registration with the method that is asked before it. */
  lemma RouteIsReachable(t: Table, i: nat, verb: Method)
    requires TableOk(t) && i < |t.routes| && verb in t.routes[i].methods
    ensures AnswersSomeRequest(t, i, verb) <==> Reachable(t, i, verb)
  {
    if path :| Carried(verb, path) && Answers(t, i, path, verb) {
      CarriedPaths(verb, path);
      AnswererIsReachable(t, i, verb, path);
    }
    if Reachable(t, i, verb) {
      var path;
      if EndsOpen(Pieces(t.routes[i].pattern)) {
        var n, slash :| 1 <= n <= Longest(t.routes) + 1 && Free(t, i, verb, Tail(n, slash));
        path := FreeShapeAnswers(t, i, verb, Tail(n, slash), n, slash);
      } else {
        path := FreeShapeAnswers(t, i, verb, [], 0, false);
      }
      CarriedPaths(verb, path);
    }
  }

  /** Nothing shadows a literal registration, so it answers exactly when a request can hold its pattern. */
  lemma LiteralRouteIsReachable(t: Table, i: nat, verb: Method)
    requires TableOk(t) && NoOverlap(t) && i < |t.routes| && !IsDynamic(t.routes[i].pattern) && verb in t.routes[i].methods
    ensures AnswersSomeRequest(t, i, verb) <==> PlainLiterals(Pieces(t.routes[i].pattern))
  {
    RouteIsReachable(t, i, verb);
    forall j: nat | j < |t.routes| && Before(t, j, i, verb)
      ensures !ShapeTaken(Pieces(t.routes[j].pattern), Shape(Pieces(t.routes[i].pattern), []))
    {
      if ShapeTaken(Pieces(t.routes[j].pattern), Shape(Pieces(t.routes[i].pattern), [])) {
        LiteralTakesItself(t.routes[j].pattern, t.routes[i].pattern);
      }
    }
  }

  lemma LiteralTakesItself(p: string, q: string)
    requires Rooted(p) && Rooted(q) && !IsDynamic(p) && !IsDynamic(q) && ShapeTaken(Pieces(p), Shape(Pieces(q), []))
    ensures p == q
  {
    var (a, b) := (Pieces(p), Pieces(q));
    forall k | 0 <= k < |a| ensures a[k] == b[k] {
      NoCaptures(a, k);
      NoCaptures(b, k);
      assert PieceTaken(a[k], Shape(b, [])[k]);
    }
    assert a == b;
    PathOfPieces(p);
    PathOfPieces(q);
  }

  // ------------------------------------------------------------------- covering

  /** Segment `a` takes whatever `b` takes. */
  predicate SegmentCovers(a: string, b: string) {
    if IsCapture(a) then b != "" else a == b
  }

  /** The segments `a` match every path that the segments `b` match; see `CoveringIsExact`. */
  predicate SegmentsCover(a: seq<string>, b: seq<string>) {
    && Fixed(a) <= Fixed(b)
    && (forall k :: 0 <= k < Fixed(a) ==> SegmentCovers(a[k], b[k]))
    && (if EndsOpen(a) then EndsOpen(b) || |a| <= |b| else !EndsOpen(b) && |a| == |b|)
  }

  predicate PatternCovers(p: string, q: string)
    requires Rooted(p) && Rooted(q)
  {
    SegmentsCover(Pieces(p), Pieces(q))
  }

  lemma CoveringMatches(p: string, q: string, path: string)
    requires Rooted(p) && Rooted(q) && PatternCovers(p, q) && Matches(q, path)
    ensures Matches(p, path)
  {
    var (a, b, pieces) := (Pieces(p), Pieces(q), Pieces(path));
    forall k | 0 <= k < Fixed(a) ensures SegmentMatches(a[k], pieces[k]) {
      assert SegmentCovers(a[k], b[k]) && SegmentMatches(b[k], pieces[k]);
    }
  }

  /** Two empty pieces at the end suit a wildcard in their place or before it, and nothing else. */
  function WidestTail(segments: seq<string>): seq<Piece> {
    if EndsOpen(segments) then [Given(""), Given("")] else []
  }

  lemma WidestTells(a: seq<string>, b: seq<string>)
    requires SegmentsValid(a) && ShapeTaken(a, Shape(b, WidestTail(b)))
    ensures SegmentsCover(a, b)
  {
    var shape := Shape(b, WidestTail(b));
    if EndsOpen(b) && Fixed(a) > Fixed(b) {
      assert PieceTaken(a[Fixed(b)], shape[Fixed(b)]);
      ValidAt(a, |a|, Fixed(b));
      assert false;
    }
    forall k | 0 <= k < Fixed(a) ensures SegmentCovers(a[k], b[k]) {
      assert PieceTaken(a[k], shape[k]);
    }
  }

  /** Covering is the inclusion of what is matched, over all texts. */
  lemma CoveringIsExact(p: string, q: string)
    requires ValidPattern(p) && ValidPattern(q)
    ensures PatternCovers(p, q) <==> forall path :: Matches(q, path) ==> Matches(p, path)
  {
    if PatternCovers(p, q) {
      forall path | Matches(q, path) ensures Matches(p, path) { CoveringMatches(p, q, path); }
    } else {
      var own := OwnWord(|p| + |q| + 1);
      var shape := Shape(Pieces(q), WidestTail(Pieces(q)));
      NotASegment(own, p);
      NotASegment(own, q);
      TakenIsMatched(p, shape, own);
      TakenIsMatched(q, shape, own);
      if Matches(p, PathOf(shape, own)) { WidestTells(Pieces(p), Pieces(q)); }
    }
  }

  /** What an earlier route of its kind covers answers no request with that route's methods. */
  lemma CoveredNeverAnswers(t: Table, j: nat, i: nat, verb: Method, path: string)
    requires TableOk(t) && j < i < |t.routes| && IsDynamic(t.routes[j].pattern) && verb in t.routes[j].methods
    requires PatternCovers(t.routes[j].pattern, t.routes[i].pattern)
    ensures IsDynamic(t.routes[i].pattern) ==> !Answers(t, i, path, verb)
  {
    if IsDynamic(t.routes[i].pattern) && Answers(t, i, path, verb) {
      CoveringMatches(t.routes[j].pattern, t.routes[i].pattern, path);
      assert Takes(t, j, path, verb);
    }
  }
}
