/**
 The incremental parser object (src/request.cpp, `RequestParser`): it keeps a
 validated head while the body arrives, holding views into a buffer that may move
 between calls. Views are addresses here, so that rebasing can go wrong: a view
 reads as a text only while it points into the buffer, or at the static root path.
 */
module RequestViews {
  import opened Text
  import opened Messages
  import opened Fields
  import opened RequestParsing

  /** Address of the static string "/". */
  const ROOT_ADDRESS := 1

  datatype View = View(address: int, size: nat)

  const EMPTY_VIEW := View(0, 0)

  /** The buffer is storage of its own, away from the static string. */
  predicate Placed(base: int) { base > ROOT_ADDRESS }

  /** The text a view denotes while the buffer holds `bytes` at `base`; nothing when it dangles. */
  function Read(base: int, bytes: string, v: View): Option<string> {
    if v.size == 0 then Some("")
    else if base <= v.address && v.address + v.size <= base + |bytes| then
      Some(bytes[v.address - base..v.address - base + v.size])
    else if v.address == ROOT_ADDRESS && v.size == 1 then Some("/")
    else None
  }

  datatype Offset = Offset(value: nat, borrowed: bool)

  const NOT_BORROWED := Offset(0, false)

  function OffsetOf(base: int, limit: int, v: View): Offset {
    if v.size == 0 then NOT_BORROWED
    else if base <= v.address < limit then Offset(v.address - base, true)
    else NOT_BORROWED
  }

  function Rebase(newBase: int, v: View, o: Offset): View {
    if o.borrowed then View(newBase + o.value, v.size) else v
  }

  function ViewOf(base: int, p: Place): View
    requires PlaceInside(p, if p.InHead? then p.span.hi else 0)
  {
    match p
    case Nowhere => EMPTY_VIEW
    case InHead(span) => View(base + span.lo, span.hi - span.lo)
    case RootPath => View(ROOT_ADDRESS, 1)
  }

  function SpanView(base: int, span: Span): View
    requires span.lo <= span.hi
  {
    View(base + span.lo, span.hi - span.lo)
  }

  /** The view and its remembered offset stand for this place of a head starting at `base`. */
  predicate Tracks(v: View, o: Offset, p: Place, base: int) {
    match p
    case Nowhere => v.size == 0 && !o.borrowed
    case RootPath => v == View(ROOT_ADDRESS, 1) && !o.borrowed
    case InHead(span) =>
      && span.lo <= span.hi && v.size == span.hi - span.lo
      && if v.size == 0 then !o.borrowed else v.address == base + span.lo && o == Offset(span.lo, true)
  }

  lemma FreshViewTracks(p: Place, base: int, bodyOffset: nat)
    requires base > ROOT_ADDRESS && PlaceInside(p, bodyOffset)
    ensures Tracks(ViewOf(base, p), OffsetOf(base, base + bodyOffset, ViewOf(base, p)), p, base)
  {}

  /** Rebasing keeps every view on its place, whether borrowed, static or empty. */
  lemma RebaseTracks(v: View, o: Offset, p: Place, base: int, newBase: int)
    requires Tracks(v, o, p, base)
    ensures Tracks(Rebase(newBase, v, o), o, p, newBase)
  {}

  lemma TrackedReads(v: View, o: Offset, p: Place, base: int, bytes: string, bodyOffset: nat)
    requires Tracks(v, o, p, base) && base > ROOT_ADDRESS && bodyOffset <= |bytes| && PlaceInside(p, bodyOffset)
    ensures Read(base, bytes, v) == Some(PlaceText(bytes[..bodyOffset], p))
  {
    if p.InHead? {
      assert bytes[p.span.lo..p.span.hi] == bytes[..bodyOffset][p.span.lo..p.span.hi];
    }
  }

  datatype HeaderView = HeaderView(name: View, value: View)
  datatype HeaderOffset = HeaderOffset(name: Offset, value: Offset)

  predicate HeaderTracks(v: HeaderView, o: HeaderOffset, h: Header, base: int) {
    Tracks(v.name, o.name, InHead(h.name), base) && Tracks(v.value, o.value, InHead(h.value), base)
  }

  predicate HeadersTrack(vs: seq<HeaderView>, os: seq<HeaderOffset>, hs: seq<Header>, base: int) {
    |vs| == |os| == |hs| && forall i :: 0 <= i < |hs| ==> HeaderTracks(vs[i], os[i], hs[i], base)
  }

  /** The borrowed views of a request, and the offsets remembered for them. */
  datatype Views = Views(target: View, path: View, query: View, authority: View, headers: seq<HeaderView>)
  datatype Offsets = Offsets(target: Offset, path: Offset, query: Offset, authority: Offset, headers: seq<HeaderOffset>)

  predicate ViewsTrack(v: Views, o: Offsets, h: ParsedHead, base: int) {
    && Tracks(v.target, o.target, h.target, base)
    && Tracks(v.path, o.path, h.path, base)
    && Tracks(v.query, o.query, h.query, base)
    && Tracks(v.authority, o.authority, h.authority, base)
    && HeadersTrack(v.headers, o.headers, h.headers, base)
  }

  /** The views of a head found at `base` (`parse_head`). */
  method TakeViews(base: int, h: ParsedHead) returns (v: Views)
    requires HeadInside(h)
    ensures v.target == ViewOf(base, h.target) && v.path == ViewOf(base, h.path)
    ensures v.query == ViewOf(base, h.query) && v.authority == ViewOf(base, h.authority)
    ensures |v.headers| == |h.headers| && forall i :: 0 <= i < |h.headers| ==>
              v.headers[i] == HeaderView(SpanView(base, h.headers[i].name), SpanView(base, h.headers[i].value))
  {
    var headers: seq<HeaderView> := [];
    for i := 0 to |h.headers|
      invariant |headers| == i && forall k :: 0 <= k < i ==>
        headers[k] == HeaderView(SpanView(base, h.headers[k].name), SpanView(base, h.headers[k].value))
    {
      headers := headers + [HeaderView(SpanView(base, h.headers[i].name), SpanView(base, h.headers[i].value))];
    }
    return Views(ViewOf(base, h.target), ViewOf(base, h.path), ViewOf(base, h.query), ViewOf(base, h.authority), headers);
  }

  method RememberHeaderOffsets(base: int, limit: int, vs: seq<HeaderView>, hs: seq<Header>) returns (os: seq<HeaderOffset>)
    requires base > ROOT_ADDRESS && base <= limit && HeadersInside(hs, limit - base) && |vs| == |hs|
    requires forall i :: 0 <= i < |hs| ==> vs[i] == HeaderView(SpanView(base, hs[i].name), SpanView(base, hs[i].value))
    ensures HeadersTrack(vs, os, hs, base)
  {
    os := [];
    for i := 0 to |vs|
      invariant |os| == i && forall k :: 0 <= k < i ==> HeaderTracks(vs[k], os[k], hs[k], base)
    {
      os := os + [HeaderOffset(OffsetOf(base, limit, vs[i].name), OffsetOf(base, limit, vs[i].value))];
    }
  }

  /** `remember_buffer_offsets`: which views are borrowed is decided by their addresses alone. */
  method RememberBufferOffsets(base: int, v: Views, h: ParsedHead) returns (o: Offsets)
    requires HeadInside(h) && base > ROOT_ADDRESS
    requires v.target == ViewOf(base, h.target) && v.path == ViewOf(base, h.path)
    requires v.query == ViewOf(base, h.query) && v.authority == ViewOf(base, h.authority)
    requires |v.headers| == |h.headers| && forall i :: 0 <= i < |h.headers| ==>
              v.headers[i] == HeaderView(SpanView(base, h.headers[i].name), SpanView(base, h.headers[i].value))
    ensures ViewsTrack(v, o, h, base)
  {
    var limit := base + h.bodyOffset;
    var headers := RememberHeaderOffsets(base, limit, v.headers, h.headers);
    FreshViewTracks(h.target, base, h.bodyOffset);
    FreshViewTracks(h.path, base, h.bodyOffset);
    FreshViewTracks(h.query, base, h.bodyOffset);
    FreshViewTracks(h.authority, base, h.bodyOffset);
    return Offsets(OffsetOf(base, limit, v.target), OffsetOf(base, limit, v.path), OffsetOf(base, limit, v.query),
                   OffsetOf(base, limit, v.authority), headers);
  }

  method RebaseHeaders(newBase: int, vs: seq<HeaderView>, os: seq<HeaderOffset>, ghost hs: seq<Header>, ghost base: int)
    returns (moved: seq<HeaderView>)
    requires HeadersTrack(vs, os, hs, base)
    ensures HeadersTrack(moved, os, hs, newBase)
  {
    moved := [];
    for i := 0 to |vs|
      invariant |moved| == i && forall k :: 0 <= k < i ==> HeaderTracks(moved[k], os[k], hs[k], newBase)
    {
      assert HeaderTracks(vs[i], os[i], hs[i], base);
      RebaseTracks(vs[i].name, os[i].name, InHead(hs[i].name), base, newBase);
      RebaseTracks(vs[i].value, os[i].value, InHead(hs[i].value), base, newBase);
      moved := moved + [HeaderView(Rebase(newBase, vs[i].name, os[i].name), Rebase(newBase, vs[i].value, os[i].value))];
    }
  }

  method RebaseBorrowedViews(newBase: int, v: Views, o: Offsets, ghost h: ParsedHead, ghost base: int)
    returns (moved: Views)
    requires ViewsTrack(v, o, h, base)
    ensures ViewsTrack(moved, o, h, newBase)
  {
    RebaseTracks(v.target, o.target, h.target, base, newBase);
    RebaseTracks(v.path, o.path, h.path, base, newBase);
    RebaseTracks(v.query, o.query, h.query, base, newBase);
    RebaseTracks(v.authority, o.authority, h.authority, base, newBase);
    var headers := RebaseHeaders(newBase, v.headers, o.headers, h.headers, base);
    return Views(Rebase(newBase, v.target, o.target), Rebase(newBase, v.path, o.path),
                 Rebase(newBase, v.query, o.query), Rebase(newBase, v.authority, o.authority), headers);
  }

  // -------------------------------------------------------------- what is handed out

  datatype RequestView = RequestView(
    verb: Method, views: Views, parameters: Parameters, keepAlive: bool, body: View, bodyOffset: nat, consumed: nat)

  ghost predicate HeadersDenote(base: int, bytes: string, vs: seq<HeaderView>, hs: seq<(string, string)>) {
    |vs| == |hs| && forall i :: 0 <= i < |vs| ==>
      Read(base, bytes, vs[i].name) == Some(hs[i].0) && Read(base, bytes, vs[i].value) == Some(hs[i].1)
  }

  /** Every view reads as the text of the one-shot parse. */
  ghost predicate Denotes(base: int, bytes: string, v: RequestView, p: Parsed) {
    var r := p.request;
    && v.verb == r.verb && v.keepAlive == r.keepAlive && v.bodyOffset == p.bodyOffset && v.consumed == p.consumed
    && Read(base, bytes, v.views.target) == Some(r.target)
    && Read(base, bytes, v.views.path) == Some(r.path)
    && Read(base, bytes, v.views.query) == Some(r.query)
    && Read(base, bytes, v.views.authority) == Some(r.authority)
    && Read(base, bytes, v.body) == Some(r.body)
    && HeadersDenote(base, bytes, v.views.headers, r.headers)
    && ParametersInside(v.parameters) && ParameterTexts(v.parameters) == r.parameters
  }

  lemma HeadersRead(vs: seq<HeaderView>, os: seq<HeaderOffset>, hs: seq<Header>, base: int, bytes: string, bodyOffset: nat)
    requires HeadersTrack(vs, os, hs, base) && base > ROOT_ADDRESS
    requires bodyOffset <= |bytes| && HeadersInside(hs, bodyOffset)
    ensures HeadersDenote(base, bytes, vs, HeaderTexts(bytes[..bodyOffset], hs))
  {
    forall i | 0 <= i < |vs|
      ensures Read(base, bytes, vs[i].name) == Some(HeaderTexts(bytes[..bodyOffset], hs)[i].0)
      ensures Read(base, bytes, vs[i].value) == Some(HeaderTexts(bytes[..bodyOffset], hs)[i].1)
    {
      assert HeaderTracks(vs[i], os[i], hs[i], base);
      TrackedReads(vs[i].name, os[i].name, InHead(hs[i].name), base, bytes, bodyOffset);
      TrackedReads(vs[i].value, os[i].value, InHead(hs[i].value), base, bytes, bodyOffset);
    }
  }

  function HandedOut(base: int, v: Views, h: ParsedHead): RequestView {
    RequestView(h.verb, v, h.parameters, h.keepAlive, View(base + h.bodyOffset, h.bodyBytes), h.bodyOffset,
                h.bodyOffset + h.bodyBytes)
  }

  lemma HandedOutDenotes(base: int, bytes: string, v: Views, o: Offsets, h: ParsedHead)
    requires HeadInside(h) && ViewsTrack(v, o, h, base) && base > ROOT_ADDRESS
    requires h.bodyOffset + h.bodyBytes <= |bytes|
    ensures Denotes(base, bytes, HandedOut(base, v, h), Complete(bytes, h).value)
  {
    TrackedReads(v.target, o.target, h.target, base, bytes, h.bodyOffset);
    TrackedReads(v.path, o.path, h.path, base, bytes, h.bodyOffset);
    TrackedReads(v.query, o.query, h.query, base, bytes, h.bodyOffset);
    TrackedReads(v.authority, o.authority, h.authority, base, bytes, h.bodyOffset);
    HeadersRead(v.headers, o.headers, h.headers, base, bytes, h.bodyOffset);
    assert h.bodyBytes == 0 ==> bytes[h.bodyOffset..h.bodyOffset] == "";
  }

  /** What a reader finds behind a view; nothing behind one that dangles. */
  function TextBehind(base: int, bytes: string, v: View): string {
    match Read(base, bytes, v)
    case Some(text) => text
    case None => ""
  }

  function HeadersBehind(base: int, bytes: string, vs: seq<HeaderView>): seq<(string, string)> {
    seq(|vs|, i requires 0 <= i < |vs| => (TextBehind(base, bytes, vs[i].name), TextBehind(base, bytes, vs[i].value)))
  }

  /** The request as a handler reads it through its views. */
  function RequestBehind(base: int, bytes: string, v: RequestView): Request {
    Request(v.verb, TextBehind(base, bytes, v.views.target), TextBehind(base, bytes, v.views.path),
            TextBehind(base, bytes, v.views.query), TextBehind(base, bytes, v.views.authority),
            HeadersBehind(base, bytes, v.views.headers),
            if ParametersInside(v.parameters) then ParameterTexts(v.parameters) else [],
            v.keepAlive, TextBehind(base, bytes, v.body))
  }

  lemma DenotedIsRead(base: int, bytes: string, v: RequestView, p: Parsed)
    requires Denotes(base, bytes, v, p)
    ensures RequestBehind(base, bytes, v) == p.request && v.consumed == p.consumed
  {
    assert HeadersBehind(base, bytes, v.views.headers) == p.request.headers;
  }

  class RequestParser {
    const limits: Limits
    var headComplete: bool
    var bufferBase: int
    var verb: Method
    var keepAlive: bool
    var parameters: Parameters
    var views: Views
    var offsets: Offsets
    var bodyOffset: nat
    var bodyBytes: nat
    ghost var seen: string      // the bytes of the last call for the current request
    ghost var head: ParsedHead  // the head those bytes hold

    /** The retained fields are those of `head`, as it lies at `bufferBase`. */
    ghost predicate Retains()
      reads this
    {
      && HeadInside(head) && head.bodyOffset <= |seen|
      && verb == head.verb && keepAlive == head.keepAlive && parameters == head.parameters
      && bodyOffset == head.bodyOffset && bodyBytes == head.bodyBytes
      && bufferBase > ROOT_ADDRESS && ViewsTrack(views, offsets, head, bufferBase)
    }

    /** A head that is known is the head of all bytes that continue those already seen. */
    ghost predicate Valid()
      reads this
    {
      headComplete ==>
        && Retains()
        && forall bytes {:trigger ParseHead(bytes, limits)} :: Prefix(seen, bytes) ==> ParseHead(bytes, limits) == Ok(head)
    }

    constructor (limits: Limits)
      ensures Valid() && !headComplete && seen == "" && this.limits == limits
    {
      this.limits := limits;
      headComplete := false;
      verb := Get;
      parameters := Parameters("", []);
      views := Views(EMPTY_VIEW, EMPTY_VIEW, EMPTY_VIEW, EMPTY_VIEW, []);
      offsets := Offsets(NOT_BORROWED, NOT_BORROWED, NOT_BORROWED, NOT_BORROWED, []);
      seen := "";
    }

    method Reset()
      modifies this
      ensures Valid() && !headComplete && seen == ""
    {
      views := Views(EMPTY_VIEW, EMPTY_VIEW, EMPTY_VIEW, EMPTY_VIEW, []);
      offsets := Offsets(NOT_BORROWED, NOT_BORROWED, NOT_BORROWED, NOT_BORROWED, []);
      bufferBase, bodyOffset, bodyBytes := 0, 0, 0;
      headComplete := false;
      seen := "";
    }

    /** Any call with the same growing prefix, wherever the buffer lies now, answers what a fresh parse of those bytes
        would, and hands out views that read as the fresh parse's texts. */
    method Parse(base: int, bytes: string) returns (r: Result<RequestView>)
      requires Valid() && Placed(base) && Prefix(seen, bytes)
      modifies this
      ensures Valid()
      ensures match ParseRequest(bytes, limits)
              case Err(e) => r == Err(e) && seen == bytes && headComplete == ParseHead(bytes, limits).Ok?
              case Ok(p) => r.Ok? && Denotes(base, bytes, r.value, p) && !headComplete && seen == ""
    {
      RequestFollowsHead(bytes, limits);
      if headComplete {
        KeepHead(bytes);
      } else {
        seen := bytes;
        var parsed := ParseHead(bytes, limits);
        if parsed.Err? { return Err(parsed.error); }
        HeadIsKept(bytes, limits);
        AdoptHead(base, parsed.value);
      }
      r := Finish(base, bytes);
    }

    /** More bytes behind a head that is already known. */
    ghost method KeepHead(bytes: string)
      requires Valid() && headComplete && Prefix(seen, bytes)
      modifies `seen
      ensures Valid() && seen == bytes
    {
      seen := bytes;
    }

    method AdoptHead(base: int, h: ParsedHead)
      requires HeadInside(h) && Placed(base) && h.bodyOffset <= |seen|
      modifies this
      ensures headComplete && head == h && seen == old(seen) && Retains()
    {
      head := h;
      verb, keepAlive, parameters, bodyOffset, bodyBytes := h.verb, h.keepAlive, h.parameters, h.bodyOffset, h.bodyBytes;
      bufferBase := base;
      views := TakeViews(base, h);
      offsets := RememberBufferOffsets(base, views, h);
      headComplete := true;
    }

    /** The buffer moved: the retained views follow it. */
    method Relocate(base: int)
      requires Retains() && Placed(base)
      modifies `views, `bufferBase
      ensures Retains() && bufferBase == base
    {
      if base != bufferBase {
        views := RebaseBorrowedViews(base, views, offsets, head, bufferBase);
        bufferBase := base;
      }
    }

    /** The whole request is in the buffer. */
    method HandOut(ghost bytes: string) returns (v: RequestView)
      requires Retains() && bodyOffset + bodyBytes <= |bytes|
      ensures Denotes(bufferBase, bytes, v, Complete(bytes, head).value)
    {
      HandedOutDenotes(bufferBase, bytes, views, offsets, head);
      v := RequestView(verb, views, parameters, keepAlive, View(bufferBase + bodyOffset, bodyBytes), bodyOffset,
                       bodyOffset + bodyBytes);
      assert v == HandedOut(bufferBase, views, head);
    }

    /** The head is known: rebase if the buffer moved, then wait for the body or hand the request out. */
    method Finish(base: int, bytes: string) returns (r: Result<RequestView>)
      requires headComplete && Retains() && Placed(base) && seen == bytes
      modifies this
      ensures match Complete(bytes, old(head))
              case Err(e) => r == Err(e) && seen == bytes && headComplete && head == old(head) && Retains()
              case Ok(p) => r.Ok? && Denotes(base, bytes, r.value, p) && !headComplete && seen == ""
    {
      Relocate(base);
      if |bytes| < bodyOffset || |bytes| - bodyOffset < bodyBytes {
        return Err(NeedsMoreData);
      }
      var v := HandOut(bytes);
      r := Ok(v);
      Reset();
    }
  }
}
