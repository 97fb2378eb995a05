/** Registrations that succeed although no request will ever be answered by the last of them. */
module UnreachableRoutes {
  import opened Text
  import opened RoutePatterns
  import opened Messages
  import opened Routing
  import opened Reachability

  // -------------------------------------------------------------------- patterns

  function PatternOf(segments: seq<string>): (p: string)
    requires segments != []
    ensures Rooted(p)
  {
    [SLASH] + Join(segments, SLASH)
  }

  predicate Unsliced(segments: seq<string>) { forall k :: 0 <= k < |segments| ==> SLASH !in segments[k] }

  lemma PatternPieces(segments: seq<string>)
    requires segments != [] && Unsliced(segments)
    ensures Pieces(PatternOf(segments)) == segments
  {
    SplitJoin(segments, SLASH);
    assert PatternOf(segments)[1..] == Join(segments, SLASH);
  }

  /** A segment that stands for itself. */
  predicate Word(s: string) {
    s != "" && s != "." && s != ".." && forall k :: 0 <= k < |s| ==> s[k] != SLASH && s[k] != '{' && s[k] != '}' && s[k] != '*'
  }

  function Braced(name: string): string { "{" + name + "}" }

  lemma WordIsLiteral(word: string, isFinal: bool)
    requires Word(word)
    ensures ClassifySegment(word, isFinal) == Literal && !IsCapture(word)
  {
    assert '*' !in word && '{' !in word && '}' !in word;
  }

  lemma BracedIsParameter(name: string, isFinal: bool)
    requires Word(name)
    ensures ClassifySegment(Braced(name), isFinal) == Parameter && IsCapture(Braced(name)) && Braced(name) != "*"
    ensures SLASH !in Braced(name)
  {
    var segment := Braced(name);
    assert segment[0] == '{' && segment[|segment| - 1] == '}' && segment[1..|segment| - 1] == name;
    assert forall k :: 0 <= k < |segment| ==> segment[k] != '*' && segment[k] != SLASH;
    assert |segment| >= 3;
  }

  lemma BracedDiffers(x: string, y: string)
    requires x != y
    ensures Braced(x) != Braced(y)
  {
    assert Braced(x)[1..|Braced(x)| - 1] == x && Braced(y)[1..|Braced(y)| - 1] == y;
  }

  lemma CountSegments(init: seq<string>, last: string)
    ensures CaptureCount(init + [last]) == CaptureCount(init) + if IsCapture(last) then 1 else 0
  {
    assert (init + [last])[..|init|] == init;
  }

  lemma ValidSegments(segments: seq<string>, n: nat)
    requires n <= |segments| && forall k :: 0 <= k < n ==> !KindIs(segments, k, Invalid)
    ensures ValidTo(segments, n)
  {
    if n > 0 { ValidSegments(segments, n - 1); }
  }

  /** `/word/{name}` */
  function CaptureBehind(word: string, name: string): seq<string> { [word, Braced(name)] }

  /** `/word/` */
  function SlashBehind(word: string): seq<string> { [word, ""] }

  /** The same with a star in a segment of its own behind it. */
  function CaptureAndStarBehind(word: string, name: string): seq<string> { [word, Braced(name), "*"] }

  /** A star right behind the word. */
  function StarBehind(word: string): seq<string> { [word, "*"] }

  lemma PatternIsValid(segments: seq<string>, captures: nat)
    requires segments != [] && Unsliced(segments) && SegmentsValid(segments) && CaptureCount(segments) == captures <= 1
    ensures ValidPattern(PatternOf(segments)) && Pieces(PatternOf(segments)) == segments
    ensures IsDynamic(PatternOf(segments)) <==> EndsOpen(segments) || captures > 0
  {
    PatternPieces(segments);
  }

  lemma CaptureBehindIsValid(word: string, name: string)
    requires Word(word) && Word(name)
    ensures var p := PatternOf(CaptureBehind(word, name));
            ValidPattern(p) && IsDynamic(p) && Pieces(p) == CaptureBehind(word, name)
  {
    var segments := CaptureBehind(word, name);
    WordIsLiteral(word, false);
    BracedIsParameter(name, true);
    ValidSegments(segments, 2);
    CountSegments([], word);
    CountSegments([word], Braced(name));
    assert [word] + [Braced(name)] == segments;
    PatternIsValid(segments, 1);
  }

  lemma SlashBehindIsValid(word: string)
    requires Word(word)
    ensures var p := PatternOf(SlashBehind(word)); ValidPattern(p) && !IsDynamic(p) && Pieces(p) == SlashBehind(word)
  {
    var segments := SlashBehind(word);
    WordIsLiteral(word, false);
    ValidSegments(segments, 2);
    CountSegments([], word);
    CountSegments([word], "");
    assert [word] + [""] == segments;
    PatternIsValid(segments, 0);
  }

  lemma CaptureAndStarBehindIsValid(word: string, name: string)
    requires Word(word) && Word(name)
    ensures var p := PatternOf(CaptureAndStarBehind(word, name));
            ValidPattern(p) && IsDynamic(p) && Pieces(p) == CaptureAndStarBehind(word, name)
  {
    var segments := CaptureAndStarBehind(word, name);
    WordIsLiteral(word, false);
    BracedIsParameter(name, false);
    ValidSegments(segments, 3);
    CountSegments([], word);
    CountSegments([word], Braced(name));
    CountSegments([word, Braced(name)], "*");
    assert [word] + [Braced(name)] == [word, Braced(name)] && [word, Braced(name)] + ["*"] == segments;
    PatternIsValid(segments, 1);
  }

  lemma StarBehindIsValid(word: string)
    requires Word(word)
    ensures var p := PatternOf(StarBehind(word)); ValidPattern(p) && IsDynamic(p) && Pieces(p) == StarBehind(word)
  {
    var segments := StarBehind(word);
    WordIsLiteral(word, false);
    ValidSegments(segments, 2);
    CountSegments([], word);
    CountSegments([word], "*");
    assert [word] + ["*"] == segments;
    PatternIsValid(segments, 0);
  }

  // ---------------------------------------------------------------- registration

  predicate AllValid(patterns: seq<string>) {
    && (forall k :: 0 <= k < |patterns| ==> ValidPattern(patterns[k]))
    && (forall j, k :: 0 <= j < k < |patterns| ==> patterns[j] != patterns[k])
  }

  /** The first routes are these patterns, in order and under these methods. */
  predicate Holds(t: Table, methods: set<Method>, patterns: seq<string>) {
    |t.routes| == |patterns| && forall k :: 0 <= k < |patterns| ==> t.routes[k].pattern == patterns[k] && t.routes[k].methods == methods
  }

  /** A pattern that is not registered yet registers. */
  method RegisterNext(router: Router, methods: set<Method>, patterns: seq<string>, n: nat, handler: nat) returns (outcome: Outcome)
    requires router.Valid() && methods != {} && n < |patterns| && AllValid(patterns)
    requires Holds(router.Registered(), methods, patterns[..n])
    modifies router
    ensures outcome == Done && router.Valid() && Holds(router.Registered(), methods, patterns[..n + 1])
  {
    assert !router.Taken(methods, patterns[n]) by {
      assert forall k :: 0 <= k < n ==> router.routes[k].pattern == patterns[..n][k] == patterns[k];
    }
    outcome := router.AddRoute(methods, patterns[n], Some(handler));
    assert forall k :: 0 <= k < n ==> router.routes[k] == router.routes[..n][k];
  }

  /** Different valid patterns all register: every call answers `Done`. */
  method RegisterAll(router: Router, methods: set<Method>, patterns: seq<string>, handler: nat)
    requires router.Valid() && router.Registered() == Table([], [], None) && methods != {} && AllValid(patterns)
    modifies router
    ensures router.Valid() && Holds(router.Registered(), methods, patterns)
  {
    for n := 0 to |patterns|
      invariant router.Valid() && Holds(router.Registered(), methods, patterns[..n])
    {
      var _ := RegisterNext(router, methods, patterns, n, handler);
    }
    assert patterns[..|patterns|] == patterns;
  }

  // ------------------------------------------------------------- a renamed capture

  lemma RenamedIsCovered(word: string, x: string, y: string)
    requires Word(word) && Word(x) && Word(y)
    ensures SegmentsCover(CaptureBehind(word, x), CaptureBehind(word, y))
  {
    BracedIsParameter(x, true);
    BracedIsParameter(y, true);
    WordIsLiteral(word, false);
  }

  /** Registration refuses equal patterns only: `/word/{x}` and `/word/{y}` both register, and the second answers nothing. */
  method RegisterRenamedCapture(router: Router, methods: set<Method>, word: string, x: string, y: string, handler: nat)
    requires router.Valid() && router.Registered() == Table([], [], None) && methods != {}
    requires Word(word) && Word(x) && Word(y) && x != y
    modifies router
    ensures router.Valid()
    ensures Holds(router.Registered(), methods, [PatternOf(CaptureBehind(word, x)), PatternOf(CaptureBehind(word, y))])
    ensures forall verb, path | verb in methods :: !Answers(router.Registered(), 1, path, verb)
  {
    var (p, q) := (PatternOf(CaptureBehind(word, x)), PatternOf(CaptureBehind(word, y)));
    CaptureBehindIsValid(word, x);
    CaptureBehindIsValid(word, y);
    BracedDiffers(x, y);
    assert CaptureBehind(word, x)[1] != CaptureBehind(word, y)[1];
    RegisterAll(router, methods, [p, q], handler);
    RenamedIsCovered(word, x, y);
    forall verb, path | verb in methods ensures !Answers(router.Registered(), 1, path, verb) {
      CoveredNeverAnswers(router.Registered(), 0, 1, verb, path);
    }
  }

  // ------------------------------------------------------------ covered by several

  /** The word with a slash, with a capture, and with a capture and a star take all that requests leave to the word with a
      star, though none of them covers it. */
  lemma StarIsUsedUp(word: string, x: string, n: nat, slash: bool)
    requires Word(word) && Word(x) && n > 0
    ensures var shape := Shape(StarBehind(word), Tail(n, slash));
            || ShapeTaken(SlashBehind(word), shape) || ShapeTaken(CaptureBehind(word, x), shape)
            || ShapeTaken(CaptureAndStarBehind(word, x), shape)
  {
    WordIsLiteral(word, false);
    BracedIsParameter(x, false);
    var shape := Shape(StarBehind(word), Tail(n, slash));
    assert shape[0] == Given(word);
    if n == 1 {
      assert shape[1] == if slash then Given("") else Own;
    } else {
      assert shape[1] == Own;
    }
  }

  lemma FourthIsUnreachable(t: Table, word: string, x: string, methods: set<Method>, verb: Method)
    requires TableOk(t) && Word(word) && Word(x) && verb in methods
    requires Holds(t, methods, FourPatterns(word, x))
    ensures !Reachable(t, 3, verb)
  {
    FourAreValid(word, x);
    forall n, slash | n > 0 ensures !Free(t, 3, verb, Tail(n, slash)) {
      StarIsUsedUp(word, x, n, slash);
      assert Before(t, 0, 3, verb) && Before(t, 1, 3, verb) && Before(t, 2, 3, verb);
    }
  }

  function FourPatterns(word: string, x: string): seq<string> {
    [PatternOf(SlashBehind(word)), PatternOf(CaptureBehind(word, x)), PatternOf(CaptureAndStarBehind(word, x)),
     PatternOf(StarBehind(word))]
  }

  lemma FourAreValid(word: string, x: string)
    requires Word(word) && Word(x)
    ensures AllValid(FourPatterns(word, x))
    ensures var four := FourPatterns(word, x);
            && Pieces(four[0]) == SlashBehind(word) && Pieces(four[1]) == CaptureBehind(word, x)
            && Pieces(four[2]) == CaptureAndStarBehind(word, x) && Pieces(four[3]) == StarBehind(word)
            && !IsDynamic(four[0]) && IsDynamic(four[1]) && IsDynamic(four[2]) && IsDynamic(four[3])
  {
    SlashBehindIsValid(word);
    CaptureBehindIsValid(word, x);
    CaptureAndStarBehindIsValid(word, x);
    StarBehindIsValid(word);
    BracedIsParameter(x, true);
    assert SlashBehind(word)[1] == "" && StarBehind(word)[1] == "*" && CaptureBehind(word, x)[1] == Braced(x);
  }

  /** All four register, and no request that the parser accepts is answered by the last. */
  method RegisterUsedUpStar(router: Router, methods: set<Method>, word: string, x: string, handler: nat)
    requires router.Valid() && router.Registered() == Table([], [], None) && methods != {} && Word(word) && Word(x)
    modifies router
    ensures router.Valid() && Holds(router.Registered(), methods, FourPatterns(word, x))
    ensures forall verb | verb in methods :: !AnswersSomeRequest(router.Registered(), 3, verb)
  {
    FourAreValid(word, x);
    RegisterAll(router, methods, FourPatterns(word, x), handler);
    forall verb | verb in methods ensures !AnswersSomeRequest(router.Registered(), 3, verb) {
      RouteIsReachable(router.Registered(), 3, verb);
      FourthIsUnreachable(router.Registered(), word, x, methods, verb);
    }
  }

  // ------------------------------------------------------------- an escape in a literal

  /** A word with an escape registers, and no request that the parser accepts is answered. */
  method RegisterEscaped(router: Router, methods: set<Method>, word: string, handler: nat)
    requires router.Valid() && router.Registered() == Table([], [], None) && methods != {} && Word(word) && '%' in word
    modifies router
    ensures router.Valid() && Holds(router.Registered(), methods, [PatternOf([word])])
    ensures forall verb | verb in methods :: !AnswersSomeRequest(router.Registered(), 0, verb)
  {
    WordIsValid(word);
    RegisterAll(router, methods, [PatternOf([word])], handler);
    EscapeIsNotPlain(word);
    forall verb | verb in methods ensures !AnswersSomeRequest(router.Registered(), 0, verb) {
      RouteIsReachable(router.Registered(), 0, verb);
    }
  }

  lemma WordIsValid(word: string)
    requires Word(word)
    ensures var p := PatternOf([word]); ValidPattern(p) && !IsDynamic(p) && Pieces(p) == [word]
  {
    WordIsLiteral(word, true);
    ValidSegments([word], 1);
    CountSegments([], word);
    assert [] + [word] == [word];
    PatternIsValid([word], 0);
  }

  lemma EscapeIsNotPlain(word: string)
    requires Word(word) && '%' in word
    ensures !PlainLiterals([word])
  {
    WordIsLiteral(word, true);
    assert !PlainLiteral([word][0]);
  }

  /** For instance these. */
  lemma SuchPatterns()
    ensures Word("a") && Word("x") && Word("y") && Word("a%b")
    ensures PatternOf(CaptureBehind("a", "x")) == "/a/{x}" && PatternOf(CaptureBehind("a", "y")) == "/a/{y}"
    ensures FourPatterns("a", "x") == ["/a/", "/a/{x}", "/a/{x}/*", "/a/*"] && PatternOf(["a%b"]) == "/a%b"
  {
    assert Braced("x") == "{x}" && Braced("y") == "{y}";
    JoinPair("a", "{x}");
    JoinPair("a", "{y}");
    JoinPair("a", "");
    JoinPair("a", "*");
    JoinPair("{x}", "*");
    assert ["a", "{x}", "*"][1..] == ["{x}", "*"];
    var four := FourPatterns("a", "x");
    assert four[0] == "/a/" && four[1] == "/a/{x}" && four[2] == "/a/{x}/*" && four[3] == "/a/*";
  }

  lemma JoinPair(a: string, b: string)
    ensures Join([a, b], SLASH) == a + [SLASH] + b
  {
    assert [a, b][1..] == [b];
  }
}
