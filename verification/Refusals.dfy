/**
 Refused bytes (src/request.cpp, `parse_head`): which refusals later bytes cannot
 undo, and a request that shows the one that can be undone.
 */
module Refusals {
  import opened Text
  import opened Messages
  import opened Fields
  import opened RequestParsing
  import opened RequestPaths

  predicate IsRefused(bytes: string, limits: Limits) {
    ParseRequest(bytes, limits).Err? && ParseRequest(bytes, limits).error != NeedsMoreData
  }

  /** The bytes end between the CR and the LF of a first line that would just meet the limit, and a blank line would still
      fit; or they are a single CR, which may yet turn out to be half of a leading empty line. */
  predicate Reopens(bytes: string, limits: Limits) {
    || bytes == [CR]
    || (|bytes| > 1 && bytes[|bytes| - 1] == CR && FindText(bytes, CRLF, Prologue(bytes)) == |bytes|
        && |bytes| - Prologue(bytes) == limits.maxRequestLine + 1 && limits.maxRequestLine + 2 <= limits.maxHeaderBlock)
  }

  /** A refusal before the head is framed. */
  predicate FramingRefused(bytes: string, limits: Limits) {
    FrameHead(bytes, limits).Err? && FrameHead(bytes, limits).error != NeedsMoreData
  }

  lemma FramingRefusalRefuses(bytes: string, limits: Limits)
    ensures FramingRefused(bytes, limits) ==> IsRefused(bytes, limits)
    ensures FrameHead(bytes, limits) == Err(NeedsMoreData) ==> ParseRequest(bytes, limits) == Err(NeedsMoreData)
    ensures FrameHead(bytes, limits).Ok? && IsRefused(bytes, limits) ==>
              ParseHead(bytes, limits).Err? && ParseHead(bytes, limits).error != NeedsMoreData
  {
    RequestFollowsHead(bytes, limits);
    HeadFollowsFraming(bytes, limits);
  }

  lemma PrologueKept(bytes: string, more: string)
    requires bytes != "" && bytes != [CR]
    ensures Prologue(bytes + more) == Prologue(bytes)
  {
    if |bytes| >= 2 {
      PrologueStable(bytes, more);
    } else {
      NoPrologue(bytes + more);
    }
  }

  /** An unfinished search goes on no earlier than where the pattern could begin in the old bytes. */
  lemma SearchGoesOn(bytes: string, more: string, pattern: string, from: nat)
    requires pattern != "" && from <= |bytes| && FindText(bytes, pattern, from) == |bytes|
    ensures FindText(bytes + more, pattern, from) + |pattern| > |bytes|
  {
    assert (bytes + more)[..|bytes|] == bytes;
    FindTextInPrefix(bytes + more, |bytes|, pattern, from);
  }

  lemma LineEndMoves(bytes: string, more: string, from: nat)
    requires from <= |bytes| && FindText(bytes, CRLF, from) == |bytes|
    ensures FindText(bytes + more, CRLF, from) >= |bytes| - 1
    ensures FindText(bytes + more, CRLF, from) == |bytes| - 1 && bytes != "" ==> bytes[|bytes| - 1] == CR
  {
    SearchGoesOn(bytes, more, CRLF, from);
    var at := FindText(bytes + more, CRLF, from);
    if at == |bytes| - 1 && bytes != "" {
      assert HasAt(bytes + more, CRLF, at);
      assert (bytes + more)[at..at + 2][0] == (bytes + more)[at];
    }
  }

  /** A framing refusal that does not reopen is kept, though its reason may change. */
  lemma FramingRefusalIsFinal(bytes: string, more: string, limits: Limits)
    requires FramingRefused(bytes, limits) && !Reopens(bytes, limits)
    ensures FramingRefused(bytes + more, limits)
  {
    var start := Prologue(bytes);
    if FindText(bytes, CRLF, start) - start > limits.maxRequestLine {
      LongLineStays(bytes, more, limits);
    } else {
      BigBlockStays(bytes, more, limits);
    }
  }

  lemma LongLineStays(bytes: string, more: string, limits: Limits)
    requires bytes != "" && bytes != [CR] && !Reopens(bytes, limits)
    requires FindText(bytes, CRLF, Prologue(bytes)) - Prologue(bytes) > limits.maxRequestLine
    ensures FramingRefused(bytes + more, limits)
  {
    var start := Prologue(bytes);
    PrologueKept(bytes, more);
    var all := bytes + more;
    if FindText(bytes, CRLF, start) < |bytes| {
      FindTextStable(bytes, more, CRLF, start);
    } else {
      LineEndMoves(bytes, more, start);
      var longer := FindText(all, CRLF, start);
      if longer - start <= limits.maxRequestLine {
        assert longer == |bytes| - 1 && |bytes| - start == limits.maxRequestLine + 1;
        assert limits.maxRequestLine + 2 > limits.maxHeaderBlock;
        TerminatorBehind(all, start, longer);
      }
    }
  }

  /** A terminator does not come before the end of the first line. */
  lemma TerminatorBehind(s: string, from: nat, lineEnd: nat)
    requires from <= |s| && lineEnd == FindText(s, CRLF, from)
    ensures FindText(s, TERMINATOR, from) >= lineEnd
  {
    var t := FindText(s, TERMINATOR, from);
    if t < |s| { LineEndsFirst(s, from); }
  }

  lemma BigBlockStays(bytes: string, more: string, limits: Limits)
    requires bytes != "" && bytes != [CR] && FramingRefused(bytes, limits)
    requires FindText(bytes, CRLF, Prologue(bytes)) - Prologue(bytes) <= limits.maxRequestLine
    ensures FramingRefused(bytes + more, limits)
  {
    var start := Prologue(bytes);
    PrologueKept(bytes, more);
    var terminator := FindText(bytes, TERMINATOR, start);
    if terminator < |bytes| {
      FindTextStable(bytes, more, TERMINATOR, start);
    } else {
      SearchGoesOn(bytes, more, TERMINATOR, start);
    }
  }

  /** The half line asks for more data after all once its LF is there. */
  lemma ReopenedAsksForMore(bytes: string, limits: Limits)
    requires Reopens(bytes, limits)
    ensures ParseRequest(bytes + [LF], limits) == Err(NeedsMoreData)
  {
    var all := bytes + [LF];
    if bytes == [CR] {
      assert all == CRLF && Prologue(all) == 2;
      assert FrameHead(all, limits) == Err(NeedsMoreData);
    } else {
      var start, n := Prologue(bytes), |bytes| - 1;
      PrologueKept(bytes, [LF]);
      assert all[n..n + 2] == CRLF && HasAt(all, CRLF, n);
      LineEndMoves(bytes, [LF], start);
      TerminatorBehind(all, start, n);
      assert FrameHead(all, limits) == Err(NeedsMoreData);
    }
    FramingRefusalRefuses(all, limits);
  }

  /** Exactly the refusals that do not reopen are final: every extension of the bytes is refused too. */
  lemma RefusalIsFinal(bytes: string, limits: Limits)
    requires IsRefused(bytes, limits)
    ensures (forall more :: IsRefused(bytes + more, limits)) <==> !Reopens(bytes, limits)
  {
    if Reopens(bytes, limits) {
      ReopenedAsksForMore(bytes, limits);
      assert !IsRefused(bytes + [LF], limits);
    } else {
      forall more ensures IsRefused(bytes + more, limits) {
        StaysRefused(bytes, more, limits);
      }
    }
  }

  lemma StaysRefused(bytes: string, more: string, limits: Limits)
    requires IsRefused(bytes, limits) && !Reopens(bytes, limits)
    ensures IsRefused(bytes + more, limits)
  {
    FramingRefusalRefuses(bytes, limits);
    FramingRefusalRefuses(bytes + more, limits);
    if FrameHead(bytes, limits).Ok? {
      HeadIsStable(bytes, more, limits);
      RequestFollowsHead(bytes + more, limits);
    } else {
      FramingRefusalIsFinal(bytes, more, limits);
    }
  }

  // ------------------------------------------------------------- a request at the limit

  const SMALLEST := "GET / HTTP/1.0\r\n\r\n"

  /** Limits whose request line is exactly as long as that request's. */
  function LineLimits(isIpv6: string -> bool): Limits { Limits(14, 100, 10, 100, 0, isIpv6) }

  lemma SmallestIsRequest()
    ensures SMALLEST == RequestFor("GET", "/") && |LineFor("GET", "/")| == 14 && Requestable("/")
  {
    assert LineFor("GET", "/") == "GET / HTTP/1.0";
    assert "/"[1..] == "";
    SplitOnce("", '/');
    assert Split("", '/') == [""];
  }

  lemma SmallestAccepted(isIpv6: string -> bool)
    ensures ParseRequest(SMALLEST, LineLimits(isIpv6)).Ok?
    ensures FrameHead(SMALLEST, LineLimits(isIpv6)) == Ok(Framing(0, 14, 18))
  {
    SmallestIsRequest();
    RequestableIsParsed("GET", "/", LineLimits(isIpv6));
    PathUnbroken("/");
    RequestFrames("GET", "/", LineLimits(isIpv6));
  }

  lemma CutIsTooLong(bytes: string, n: nat, limits: Limits)
    requires ParseRequest(bytes, limits).Ok? && FrameHead(bytes, limits) == Ok(Framing(0, n, n + 4))
    requires limits.maxRequestLine == n
    ensures ParseRequest(bytes[..n + 1], limits) == Err(TargetTooLong)
  {
    AcceptedLineIsNotEmpty(bytes, limits);
    assert LineLength(bytes, limits) == n;
    ProperPrefix(bytes, n + 1, limits);
  }

  /** A refusal that accepted bytes go beyond is one that reopens. */
  lemma AcceptedReopens(cut: string, more: string, limits: Limits)
    requires ParseRequest(cut, limits) == Err(TargetTooLong) && ParseRequest(cut + more, limits).Ok?
    ensures IsRefused(cut, limits) && Reopens(cut, limits)
  {
    if !Reopens(cut, limits) { StaysRefused(cut, more, limits); }
  }

  /** A request whose line is as long as it may be is accepted whole, yet its first fifteen bytes, up to the CR, are
      refused and not waited for. */
  lemma LineAtTheLimit(isIpv6: string -> bool)
    ensures ParseRequest(SMALLEST, LineLimits(isIpv6)).Ok?
    ensures ParseRequest(SMALLEST[..15], LineLimits(isIpv6)) == Err(TargetTooLong)
    ensures IsRefused(SMALLEST[..15], LineLimits(isIpv6)) && Reopens(SMALLEST[..15], LineLimits(isIpv6))
  {
    SmallestAccepted(isIpv6);
    CutIsTooLong(SMALLEST, 14, LineLimits(isIpv6));
    assert SMALLEST[..15] + SMALLEST[15..] == SMALLEST;
    AcceptedReopens(SMALLEST[..15], SMALLEST[15..], LineLimits(isIpv6));
  }
}
