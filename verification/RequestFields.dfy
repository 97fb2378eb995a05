/**
 Header fields of a request (src/request.cpp): field lines as spans of the bytes
 they were found in, and the framing and keep-alive rules over them.
 */
module Fields {
  import opened Text
  import opened Messages

  datatype Result<+T> = Ok(value: T) | Err(error: ParseError) {
    predicate IsFailure() { Err? }
    function PropagateFailure<U>(): Result<U> requires Err? { Err(error) }
    function Extract(): T requires Ok? { value }
  }

  const MAX_PARSED_HEADERS := 64
  const TERMINATOR := "\r\n\r\n"

  /** A piece of the head: bytes `lo..hi`. */
  datatype Span = Span(lo: nat, hi: nat)

  predicate Inside(sp: Span, n: nat) { sp.lo <= sp.hi <= n }

  function Slice(s: string, sp: Span): string
    requires Inside(sp, |s|)
  {
    s[sp.lo..sp.hi]
  }

  // --------------------------------------------------------------- header fields

  predicate IsBlank(c: char) { c == ' ' || c == '\t' }

  predicate IsTokenCharacter(c: char) {
    || 'a' <= c <= 'z' || 'A' <= c <= 'Z' || IsDigit(c)
    || c == '!' || c == '#' || c == '$' || c == '%' || c == '&' || c == '\'' || c == '*' || c == '+' || c == '-'
    || c == '.' || c == '^' || c == '_' || c == '`' || c == '|' || c == '~'
  }

  predicate IsFieldValueCharacter(c: char) { c == '\t' || (c >= ' ' && c != '\U{7F}') }

  predicate IsToken(s: string) { forall i :: 0 <= i < |s| ==> IsTokenCharacter(s[i]) }

  predicate IsFieldValue(s: string) { forall i :: 0 <= i < |s| ==> IsFieldValueCharacter(s[i]) }

  /** The span without its leading and trailing blanks. */
  function Trim(s: string, sp: Span): (r: Span)
    requires Inside(sp, |s|)
    ensures sp.lo <= r.lo <= r.hi <= sp.hi
    ensures r.lo < r.hi ==> !IsBlank(s[r.lo]) && !IsBlank(s[r.hi - 1])
    decreases sp.hi - sp.lo
  {
    if sp.lo < sp.hi && IsBlank(s[sp.lo]) then Trim(s, Span(sp.lo + 1, sp.hi))
    else if sp.lo < sp.hi && IsBlank(s[sp.hi - 1]) then Trim(s, Span(sp.lo, sp.hi - 1))
    else sp
  }

  /** Only blanks are cut. */
  lemma {:induction false} TrimCutsBlanks(s: string, sp: Span)
    requires Inside(sp, |s|)
    ensures forall i :: sp.lo <= i < Trim(s, sp).lo || Trim(s, sp).hi <= i < sp.hi ==> IsBlank(s[i])
    decreases sp.hi - sp.lo
  {
    if sp.lo < sp.hi && IsBlank(s[sp.lo]) {
      TrimCutsBlanks(s, Span(sp.lo + 1, sp.hi));
    } else if sp.lo < sp.hi && IsBlank(s[sp.hi - 1]) {
      TrimCutsBlanks(s, Span(sp.lo, sp.hi - 1));
    }
  }

  /** The same of a text by itself; `FieldLines.TrimReads` ties the two. */
  function Trimmed(v: string): (r: string)
    ensures r != "" ==> !IsBlank(r[0]) && !IsBlank(r[|r| - 1])
  {
    if v == "" then ""
    else if IsBlank(v[0]) then Trimmed(v[1..])
    else if IsBlank(v[|v| - 1]) then Trimmed(v[..|v| - 1])
    else v
  }

  datatype Header = Header(name: Span, value: Span)

  predicate HeadersInside(hs: seq<Header>, n: nat) {
    forall i :: 0 <= i < |hs| ==> Inside(hs[i].name, n) && Inside(hs[i].value, n)
  }

  /** One field line `lo..hi`, without its CRLF. */
  function ParseField(s: string, lo: nat, hi: nat): (r: Result<Header>)
    requires lo <= hi <= |s|
    ensures r.Ok? ==> Inside(r.value.name, |s|) && Inside(r.value.value, |s|)
  {
    if lo < hi && IsBlank(s[lo]) then Err(MalformedHeader)
    else FieldAt(s, lo, Find(s[..hi], ':', lo), hi)
  }

  function FieldAt(s: string, lo: nat, colon: nat, hi: nat): (r: Result<Header>)
    requires lo <= colon <= hi <= |s|
    ensures r.Ok? ==> Inside(r.value.name, |s|) && Inside(r.value.value, |s|)
  {
    if colon == hi || colon == lo || !IsToken(s[lo..colon]) then Err(MalformedHeader)
    else
      var value := Trim(s, Span(colon + 1, hi));
      if !IsFieldValue(Slice(s, value)) then Err(MalformedHeader)
      else Ok(Header(Span(lo, colon), value))
  }

  /** The first of the field lines `lo..hi`, and where the next one starts. */
  function NextField(s: string, lo: nat, hi: nat): (r: Result<(Header, nat)>)
    requires lo < hi <= |s|
    ensures r.Ok? ==> Inside(r.value.0.name, |s|) && Inside(r.value.0.value, |s|) && lo < r.value.1 <= hi
  {
    var lineEnd := FindText(s[..hi], CRLF, lo);
    if lineEnd == hi then Err(MalformedHeader)
    else
      var header :- ParseField(s, lo, lineEnd);
      Ok((header, lineEnd + 2))
  }

  /** Reads the field at a position and says where the next one starts. */
  type Reader = nat -> Result<(Header, nat)>

  ghost predicate Advances(read: Reader, hi: nat) {
    forall lo: nat {:trigger read(lo)} :: lo < hi && read(lo).Ok? ==> lo < read(lo).value.1 <= hi
  }

  ghost predicate ReadsInside(read: Reader, hi: nat, n: nat) {
    forall lo: nat {:trigger read(lo)} :: lo < hi && read(lo).Ok? ==>
      Inside(read(lo).value.0.name, n) && Inside(read(lo).value.0.value, n)
  }

  ghost predicate ReadsFields(read: Reader, s: string, hi: nat) {
    hi <= |s| && forall at: nat {:trigger NextField(s, at, hi)} :: at < hi ==> NextField(s, at, hi) == read(at)
  }

  /** The reader of the field lines that end at `hi`. */
  function FieldReader(s: string, hi: nat): (read: Reader)
    requires hi <= |s|
    ensures Advances(read, hi) && ReadsInside(read, hi, |s|) && ReadsFields(read, s, hi)
  {
    (at: nat) => if at < hi then NextField(s, at, hi) else Err(MalformedHeader)
  }

  /** The fields that a reader finds one behind the other; `room` more may be taken. */
  function Collect(read: Reader, lo: nat, hi: nat, room: nat): (r: Result<seq<Header>>)
    requires lo <= hi && Advances(read, hi)
    ensures r.Ok? ==> |r.value| <= room
    decreases hi - lo
  {
    if lo == hi then Ok([])
    else
      match read(lo)
      case Err(e) => Err(e)
      case Ok((header, next)) => if room == 0 then Err(TooManyHeaders) else After([header], Collect(read, next, hi, room - 1))
  }

  lemma {:induction false} CollectInside(read: Reader, lo: nat, hi: nat, room: nat, n: nat)
    requires lo <= hi && Advances(read, hi) && ReadsInside(read, hi, n)
    ensures Collect(read, lo, hi, room).Ok? ==> HeadersInside(Collect(read, lo, hi, room).value, n)
    decreases hi - lo
  {
    if lo < hi && read(lo).Ok? && room > 0 {
      CollectInside(read, read(lo).value.1, hi, room - 1, n);
    }
  }

  /** The field lines `lo..hi`; `room` more fields may be taken. */
  function ParseFields(s: string, lo: nat, hi: nat, room: nat): (r: Result<seq<Header>>)
    requires lo <= hi <= |s|
    ensures r.Ok? ==> HeadersInside(r.value, |s|) && |r.value| <= room
  {
    CollectInside(FieldReader(s, hi), lo, hi, room, |s|);
    Collect(FieldReader(s, hi), lo, hi, room)
  }

  function After(out: seq<Header>, r: Result<seq<Header>>): Result<seq<Header>> {
    match r
    case Ok(rest) => Ok(out + rest)
    case Err(e) => Err(e)
  }

  lemma AfterSnoc(out: seq<Header>, h: Header, r: Result<seq<Header>>)
    ensures After(out, After([h], r)) == After(out + [h], r)
  {
    if r.Ok? { assert out + ([h] + r.value) == (out + [h]) + r.value; }
  }

  lemma CollectStep(read: Reader, lo: nat, hi: nat, room: nat, out: seq<Header>)
    requires lo < hi && Advances(read, hi)
    ensures read(lo).Err? ==> After(out, Collect(read, lo, hi, room)) == Err(read(lo).error)
    ensures read(lo).Ok? && room == 0 ==> After(out, Collect(read, lo, hi, room)) == Err(TooManyHeaders)
    ensures read(lo).Ok? && room > 0 ==>
              After(out, Collect(read, lo, hi, room)) == After(out + [read(lo).value.0], Collect(read, read(lo).value.1, hi, room - 1))
  {
    if read(lo).Ok? && room > 0 {
      AfterSnoc(out, read(lo).value.0, Collect(read, read(lo).value.1, hi, room - 1));
    }
  }

  method ParseHeaderFields(s: string, begin: nat, end: nat, maxCount: nat) returns (r: Result<seq<Header>>)
    requires begin <= end <= |s|
    ensures r == ParseFields(s, begin, end, if maxCount < MAX_PARSED_HEADERS then maxCount else MAX_PARSED_HEADERS)
  {
    var maximum := if maxCount < MAX_PARSED_HEADERS then maxCount else MAX_PARSED_HEADERS;
    r := CollectFields(s, begin, end, maximum, FieldReader(s, end));
  }

  method CollectFields(s: string, begin: nat, end: nat, maximum: nat, ghost read: Reader) returns (r: Result<seq<Header>>)
    requires begin <= end && Advances(read, end) && ReadsFields(read, s, end)
    ensures r == Collect(read, begin, end, maximum)
  {
    ghost var whole := Collect(read, begin, end, maximum);
    ghost var room: nat := maximum;
    var out: seq<Header>, lo := [], begin;
    assert whole.Ok? ==> [] + whole.value == whole.value;
    while lo < end
      invariant begin <= lo <= end && |out| + room == maximum
      invariant whole == After(out, Collect(read, lo, end, room))
      decreases end - lo
    {
      CollectStep(read, lo, end, room, out);
      var field := NextField(s, lo, end);
      if field.Err? { return Err(field.error); }
      if |out| >= maximum { return Err(TooManyHeaders); }
      out, room := out + [field.value.0], room - 1;
      lo := field.value.1;
    }
    assert out + [] == out;
    return Ok(out);
  }

  function HeaderTexts(s: string, hs: seq<Header>): (r: seq<(string, string)>)
    requires HeadersInside(hs, |s|)
    ensures |r| == |hs|
  {
    seq(|hs|, i requires 0 <= i < |hs| => (Slice(s, hs[i].name), Slice(s, hs[i].value)))
  }

  // -------------------------------------------------------------- content length

  const UINT64_LIMIT := 0x1_0000_0000_0000_0000

  predicate IsCanonicalDecimal(s: string) {
    s != "" && (forall i :: 0 <= i < |s| ==> IsDigit(s[i])) && (|s| > 1 ==> s[0] != '0')
  }

  datatype Decimal = Number(value: nat) | NotANumber | OutOfRange

  function ParseDecimal(s: string): Decimal {
    if !IsCanonicalDecimal(s) then NotANumber
    else if NumeralValue(s) >= UINT64_LIMIT then OutOfRange
    else Number(NumeralValue(s))
  }

  predicate Names(s: string, h: Header, name: string)
    requires Inside(h.name, |s|)
  {
    EqualsIgnoreCase(Slice(s, h.name), name)
  }

  method ResolveContentLength(s: string, headers: seq<Header>, maxBody: nat) returns (r: Result<nat>)
    requires HeadersInside(headers, |s|)
    ensures r == ContentLength(s, headers, maxBody)
  {
    var sawTransferEncoding := false;
    var declared: Option<nat> := None;
    for i := 0 to |headers|
      invariant LengthScan(s, headers, 0, false, None) == LengthScan(s, headers, i, sawTransferEncoding, declared)
    {
      var h := headers[i];
      if Names(s, h, "Transfer-Encoding") {
        sawTransferEncoding := true;
        continue;
      }
      if !Names(s, h, "Content-Length") {
        continue;
      }
      match ParseDecimal(Slice(s, h.value)) {
        case OutOfRange => return Err(BodyTooLarge);
        case NotANumber => return Err(MalformedHeader);
        case Number(n) =>
          if declared.Some? && declared.value != n { return Err(MalformedHeader); }
          declared := Some(n);
      }
    }
    if sawTransferEncoding { return Err(UnsupportedTransferEncoding); }
    var length := if declared.Some? then declared.value else 0;
    if length > maxBody { return Err(BodyTooLarge); }
    return Ok(length);
  }

  /** The scan from header `i` on, given what was seen before. */
  function LengthScan(s: string, headers: seq<Header>, i: nat, transfer: bool, declared: Option<nat>): Result<(bool, Option<nat>)>
    requires HeadersInside(headers, |s|) && i <= |headers|
    decreases |headers| - i
  {
    if i == |headers| then Ok((transfer, declared))
    else if Names(s, headers[i], "Transfer-Encoding") then LengthScan(s, headers, i + 1, true, declared)
    else if !Names(s, headers[i], "Content-Length") then LengthScan(s, headers, i + 1, transfer, declared)
    else
      match ParseDecimal(Slice(s, headers[i].value))
      case OutOfRange => Err(BodyTooLarge)
      case NotANumber => Err(MalformedHeader)
      case Number(n) =>
        if declared.Some? && declared.value != n then Err(MalformedHeader)
        else LengthScan(s, headers, i + 1, transfer, Some(n))
  }

  function ContentLength(s: string, headers: seq<Header>, maxBody: nat): Result<nat>
    requires HeadersInside(headers, |s|)
  {
    var seen :- LengthScan(s, headers, 0, false, None);
    if seen.0 then Err(UnsupportedTransferEncoding)
    else
      var length := if seen.1.Some? then seen.1.value else 0;
      if length > maxBody then Err(BodyTooLarge) else Ok(length)
  }

  ghost predicate DeclaresOnly(s: string, headers: seq<Header>, from: nat, n: nat)
    requires HeadersInside(headers, |s|)
  {
    forall i :: from <= i < |headers| ==>
      && !Names(s, headers[i], "Transfer-Encoding")
      && (Names(s, headers[i], "Content-Length") ==> ParseDecimal(Slice(s, headers[i].value)) == Number(n))
  }

  ghost predicate Declares(s: string, headers: seq<Header>, from: nat)
    requires HeadersInside(headers, |s|)
  {
    exists i :: from <= i < |headers| && Names(s, headers[i], "Content-Length")
  }

  lemma {:induction false} LengthScanMeaning(s: string, headers: seq<Header>, i: nat, transfer: bool, declared: Option<nat>, n: nat)
    requires HeadersInside(headers, |s|) && i <= |headers|
    ensures LengthScan(s, headers, i, transfer, declared) == Ok((false, Some(n))) <==>
            && !transfer && DeclaresOnly(s, headers, i, n)
            && (declared == Some(n) || (declared.None? && Declares(s, headers, i)))
    ensures LengthScan(s, headers, i, transfer, declared) == Ok((false, None)) <==>
            !transfer && declared.None? && DeclaresOnly(s, headers, i, n) && !Declares(s, headers, i)
    decreases |headers| - i
  {
    if i < |headers| {
      var h := headers[i];
      assert DeclaresOnly(s, headers, i, n) <==>
             && DeclaresOnly(s, headers, i + 1, n)
             && !Names(s, h, "Transfer-Encoding")
             && (Names(s, h, "Content-Length") ==> ParseDecimal(Slice(s, h.value)) == Number(n));
      assert Declares(s, headers, i) <==> Names(s, h, "Content-Length") || Declares(s, headers, i + 1);
      LengthScanMeaning(s, headers, i + 1, true, declared, n);
      LengthScanMeaning(s, headers, i + 1, transfer, declared, n);
      match ParseDecimal(Slice(s, h.value))
      case Number(m) => LengthScanMeaning(s, headers, i + 1, transfer, Some(m), n);
      case _ =>
    }
  }

  /** A body of n bytes is accepted exactly when no Transfer-Encoding is present, every Content-Length is the canonical
      numeral of one number, that number (zero when there is none) is n, and n is within the limit. */
  lemma ContentLengthMeaning(s: string, headers: seq<Header>, maxBody: nat, n: nat)
    requires HeadersInside(headers, |s|)
    ensures ContentLength(s, headers, maxBody) == Ok(n) <==>
            DeclaresOnly(s, headers, 0, n) && n <= maxBody && (Declares(s, headers, 0) || n == 0)
  {
    LengthScanMeaning(s, headers, 0, false, None, n);
    match LengthScan(s, headers, 0, false, None)
    case Ok(p) => if p.1.Some? { LengthScanMeaning(s, headers, 0, false, None, p.1.value); }
    case Err(_) =>
  }

  // ------------------------------------------------------------------ keep-alive

  /** The trimmed, non-empty members of a list field. */
  function ListMembers(value: string, separator: char): seq<string>
    decreases |value|
  {
    if value == "" then []
    else
      var next := Find(value, separator);
      var member := Slice(value, Trim(value, Span(0, next)));
      (if member == "" then [] else [member]) +
      (if next == |value| then [] else ListMembers(value[next + 1..], separator))
  }

  predicate ConnectionNames(s: string, headers: seq<Header>, option: string)
    requires HeadersInside(headers, |s|)
  {
    exists i :: 0 <= i < |headers| && Names(s, headers[i], "Connection") &&
      exists m :: m in ListMembers(Slice(s, headers[i].value), ',') && EqualsIgnoreCase(m, option)
  }

  predicate ResolveKeepAlive(s: string, headers: seq<Header>, isVersion11: bool)
    requires HeadersInside(headers, |s|)
  {
    if ConnectionNames(s, headers, "close") then false
    else if isVersion11 then true
    else ConnectionNames(s, headers, "keep-alive")
  }
}
