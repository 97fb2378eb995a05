/**
 Response heads: the header table of src/response.cpp and the encoder of
 src/response_encoder.cpp, whose output is proved to mean to the request parser's
 own reader what the response says.
 */
module ResponseHeads {
  import opened Text
  import opened Fields
  import opened FieldLines
  import Buffers

  const CONTENT_LENGTH := "Content-Length"
  const CONNECTION := "Connection"
  const TRANSFER_ENCODING := "Transfer-Encoding"
  const CONTENT_TYPE := "Content-Type"
  const CONTENT_ENCODING := "Content-Encoding"
  const VARY := "Vary"
  const ACCEPT_ENCODING := "Accept-Encoding"
  const KEEP_ALIVE := "keep-alive"
  const CLOSE := "close"

  const MINIMUM_COMPRESSIBLE := 1024
  const MAXIMUM_COMPRESSIBLE := 8388608

  // ---------------------------------------------------------------- header table

  /** Names are distinct, whatever their case. */
  predicate Distinct(fs: seq<Field>) {
    forall i, j :: 0 <= i < j < |fs| ==> !EqualsIgnoreCase(fs[i].0, fs[j].0)
  }

  predicate HeadersOk(fs: seq<Field>) { FieldsOk(fs) && Distinct(fs) }

  function FindHeader(fs: seq<Field>, name: string): (r: Option<string>)
    ensures r.Some? ==> exists i :: 0 <= i < |fs| && EqualsIgnoreCase(fs[i].0, name) && r.value == fs[i].1
    ensures r.None? ==> forall i :: 0 <= i < |fs| ==> !EqualsIgnoreCase(fs[i].0, name)
  {
    if fs == [] then None else if EqualsIgnoreCase(fs[0].0, name) then Some(fs[0].1) else FindHeader(fs[1..], name)
  }

  lemma SameName(a: string, b: string, c: string)
    requires EqualsIgnoreCase(a, b)
    ensures EqualsIgnoreCase(a, c) <==> EqualsIgnoreCase(b, c)
    ensures EqualsIgnoreCase(c, a) <==> EqualsIgnoreCase(c, b)
    ensures EqualsIgnoreCase(b, a)
  {}

  /** In a table of distinct names a name has at most one value. */
  lemma FindIs(fs: seq<Field>, i: nat, name: string)
    requires Distinct(fs) && i < |fs| && EqualsIgnoreCase(fs[i].0, name)
    ensures FindHeader(fs, name) == Some(fs[i].1)
  {
    var j :| 0 <= j < |fs| && EqualsIgnoreCase(fs[j].0, name) && FindHeader(fs, name).value == fs[j].1;
    SameName(fs[i].0, name, fs[j].0);
    SameName(fs[j].0, name, fs[i].0);
    assert i == j;
  }

  /** The table after a field replaced the one at `at`, or was put in there. */
  lemma TableAfter(before: seq<Field>, after: seq<Field>, at: nat, name: string, value: string, other: string)
    requires Distinct(before) && Distinct(after) && at < |after| && after[at].1 == value && EqualsIgnoreCase(after[at].0, name)
    requires forall f :: f in before && !EqualsIgnoreCase(f.0, name) ==> f in after
    requires forall f :: f in after && !EqualsIgnoreCase(f.0, name) ==> f in before
    ensures FindHeader(after, other) == AfterSet(before, name, value, other)
  {
    SameName(after[at].0, name, other);
    if EqualsIgnoreCase(name, other) {
      FindIs(after, at, other);
    } else if FindHeader(before, other).Some? {
      var i :| 0 <= i < |before| && EqualsIgnoreCase(before[i].0, other) && FindHeader(before, other).value == before[i].1;
      NotNamed(before[i].0, other, name);
      assert before[i] in before;
      var j :| 0 <= j < |after| && after[j] == before[i];
      FindIs(after, j, other);
    } else {
      forall f | f in after && EqualsIgnoreCase(f.0, other) ensures f in before {
        NotNamed(f.0, other, name);
      }
    }
  }

  /** What a name stands for once a field was set. */
  function AfterSet(before: seq<Field>, name: string, value: string, other: string): Option<string> {
    if EqualsIgnoreCase(name, other) then Some(value) else FindHeader(before, other)
  }

  lemma NotNamed(a: string, other: string, name: string)
    requires EqualsIgnoreCase(a, other) && !EqualsIgnoreCase(name, other)
    ensures !EqualsIgnoreCase(a, name)
  {
    if EqualsIgnoreCase(a, name) { SameName(a, name, other); }
  }

  method IsValidFieldName(name: string) returns (ok: bool)
    ensures ok <==> name != "" && IsToken(name)
  {
    if name == "" { return false; }
    for i := 0 to |name|
      invariant forall k :: 0 <= k < i ==> IsTokenCharacter(name[k])
    {
      if !IsTokenCharacter(name[i]) { return false; }
    }
    return true;
  }

  method IsValidFieldValue(value: string) returns (ok: bool)
    ensures ok <==> IsFieldValue(value)
  {
    for i := 0 to |value|
      invariant forall k :: 0 <= k < i ==> IsFieldValueCharacter(value[k])
    {
      if value[i] != '\t' && (value[i] < ' ' || value[i] == '\U{7F}') { return false; }
    }
    return true;
  }

  class HeaderTable {
    var headers: seq<Field>   // in the order of the container, whatever that is

    ghost predicate Valid()
      reads this
    {
      HeadersOk(headers)
    }

    constructor ()
      ensures Valid() && headers == []
    {
      headers := [];
    }

    /** Sets a field; one that could split the response is dropped. */
    method SetHeader(name: string, value: string)
      requires Valid()
      modifies this
      ensures Valid()
      ensures !FieldOk((name, value)) ==> headers == old(headers)
      ensures FieldOk((name, value)) ==>
                forall other :: FindHeader(headers, other) == AfterSet(old(headers), name, value, other)
    {
      var nameOk := IsValidFieldName(name);
      if !nameOk { return; }
      var valueOk := IsValidFieldValue(value);
      if !valueOk { return; }
      for i := 0 to |headers|
        invariant headers == old(headers)
        invariant forall k :: 0 <= k < i ==> !EqualsIgnoreCase(headers[k].0, name)
      {
        if !EqualsIgnoreCase(headers[i].0, name) { continue; }
        headers := headers[i := (headers[i].0, value)];
        Replaced(old(headers), i, name, value);
        return;
      }
      var at :| 0 <= at <= |headers|;
      headers := headers[..at] + [(name, value)] + headers[at..];
      Inserted(old(headers), at, name, value);
    }
  }

  lemma Replaced(before: seq<Field>, i: nat, name: string, value: string)
    requires HeadersOk(before) && i < |before| && EqualsIgnoreCase(before[i].0, name) && FieldOk((name, value))
    ensures var after := before[i := (before[i].0, value)];
            && HeadersOk(after)
            && forall other :: FindHeader(after, other) == AfterSet(before, name, value, other)
  {
    var after := before[i := (before[i].0, value)];
    forall f | f in before && !EqualsIgnoreCase(f.0, name) ensures f in after {
      var k :| 0 <= k < |before| && before[k] == f;
      assert after[k] == f;
    }
    forall other
      ensures FindHeader(after, other) == AfterSet(before, name, value, other)
    {
      TableAfter(before, after, i, name, value, other);
    }
  }

  function InsertedField(before: seq<Field>, at: nat, field: Field, k: nat): Field
    requires at <= |before| && k <= |before|
  {
    if k < at then before[k] else if k == at then field else before[k - 1]
  }

  lemma InsertedAt(before: seq<Field>, at: nat, field: Field, k: nat)
    requires at <= |before| && k <= |before|
    ensures (before[..at] + [field] + before[at..])[k] == InsertedField(before, at, field, k)
  {}

  lemma InsertedDistinct(before: seq<Field>, at: nat, field: Field, after: seq<Field>)
    requires HeadersOk(before) && at <= |before| && FieldOk(field) && |after| == |before| + 1
    requires forall k :: 0 <= k < |before| ==> !EqualsIgnoreCase(before[k].0, field.0)
    requires forall k :: 0 <= k < |after| ==> after[k] == InsertedField(before, at, field, k)
    ensures HeadersOk(after)
  {
    forall i, j | 0 <= i < j < |after| ensures !EqualsIgnoreCase(after[i].0, after[j].0) {
      assert after[i] == InsertedField(before, at, field, i) && after[j] == InsertedField(before, at, field, j);
      if i == at { NotSame(before[j - 1].0, field.0); }
    }
    forall k | 0 <= k < |after| ensures FieldOk(after[k]) {
      assert after[k] == InsertedField(before, at, field, k);
    }
  }

  lemma InsertedKeeps(before: seq<Field>, at: nat, field: Field, f: Field)
    requires at <= |before| && f in before
    ensures f in before[..at] + [field] + before[at..]
  {
    assert before == before[..at] + before[at..];
  }

  lemma Inserted(before: seq<Field>, at: nat, name: string, value: string)
    requires HeadersOk(before) && at <= |before| && FieldOk((name, value))
    requires forall k :: 0 <= k < |before| ==> !EqualsIgnoreCase(before[k].0, name)
    ensures var after := before[..at] + [(name, value)] + before[at..];
            && HeadersOk(after)
            && forall other :: FindHeader(after, other) == AfterSet(before, name, value, other)
  {
    var field := (name, value);
    var after := before[..at] + [field] + before[at..];
    forall k | 0 <= k < |after| ensures after[k] == InsertedField(before, at, field, k) {
      InsertedAt(before, at, field, k);
    }
    InsertedDistinct(before, at, field, after);
    forall f | f in before ensures f in after { InsertedKeeps(before, at, field, f); }
    assert EqualsIgnoreCase(name, name);
    forall other
      ensures FindHeader(after, other) == AfterSet(before, name, value, other)
    {
      TableAfter(before, after, at, name, value, other);
    }
  }

  lemma NotSame(a: string, b: string)
    requires !EqualsIgnoreCase(a, b)
    ensures !EqualsIgnoreCase(b, a)
  {
    if EqualsIgnoreCase(b, a) { SameName(b, a, b); }
  }

  // ------------------------------------------------------------------- responses

  datatype Response = Response(code: nat, reason: string, headers: seq<Field>, body: string, streaming: bool)

  datatype Options = Options(
    server: string, keepAlive: bool, secure: bool, strictTransportSecurity: bool, hstsMaxAge: nat)

  /** What the encoder asks the rest of the program: the media-type test, the compressor's answer when the client takes
      gzip, and the date. */
  datatype World = World(compressible: bool, gzip: Option<string>, date: string)

  predicate ResponseOk(r: Response) { HeadersOk(r.headers) && NoReturns(r.reason) }

  predicate WorldOk(w: World) { IsFieldValue(w.date) }

  predicate IsBodiless(r: Response) { r.code == 204 || r.code == 304 }

  predicate IsFramingField(name: string) {
    EqualsIgnoreCase(name, CONTENT_LENGTH) || EqualsIgnoreCase(name, CONNECTION) || EqualsIgnoreCase(name, TRANSFER_ENCODING)
  }

  predicate HasControlCharacter(value: string) {
    exists i :: 0 <= i < |value| && (value[i] < ' ' || value[i] == '\U{7F}')
  }

  function ValueOr(o: Option<string>, default: string): string { if o.Some? then o.value else default }

  function HandlerBody(r: Response): string { if r.streaming then "" else r.body }

  predicate Varies(r: Response, w: World) {
    && !IsBodiless(r) && ValueOr(FindHeader(r.headers, CONTENT_ENCODING), "") == ""
    && MINIMUM_COMPRESSIBLE <= |HandlerBody(r)| <= MAXIMUM_COMPRESSIBLE && w.compressible
  }

  predicate Compressed(r: Response, w: World) { Varies(r, w) && w.gzip.Some? }

  /** The body that is sent, were it not suppressed. */
  function BodyOf(r: Response, w: World): string { if Compressed(r, w) then w.gzip.value else HandlerBody(r) }

  // ------------------------------------------------------------------------ Vary

  predicate Among(pieces: seq<string>, member: string) {
    exists i :: 0 <= i < |pieces| && EqualsIgnoreCase(Trimmed(pieces[i]), member)
  }

  /** Some member of the list is this name. */
  predicate Lists(value: string, member: string) { Among(Split(value, ','), member) }

  lemma AmongFirst(first: string, rest: seq<string>, member: string)
    ensures Among([first] + rest, member) <==> EqualsIgnoreCase(Trimmed(first), member) || Among(rest, member)
  {
    var pieces := [first] + rest;
    assert pieces[0] == first;
    if Among(rest, member) {
      var i :| 0 <= i < |rest| && EqualsIgnoreCase(Trimmed(rest[i]), member);
      assert pieces[i + 1] == rest[i];
    }
    if Among(pieces, member) {
      var i :| 0 <= i < |pieces| && EqualsIgnoreCase(Trimmed(pieces[i]), member);
      assert i > 0 ==> pieces[i] == rest[i - 1];
    }
  }

  lemma ListsStep(value: string, member: string)
    ensures var comma := Find(value, ',');
            Lists(value, member) <==>
            EqualsIgnoreCase(Trimmed(value[..comma]), member) || (comma < |value| && Lists(value[comma + 1..], member))
  {
    var comma := Find(value, ',');
    SplitOnce(value, ',');
    AmongFirst(value[..comma], if comma == |value| then [] else Split(value[comma + 1..], ','), member);
  }

  /** `list_names`. */
  method ListNames(value: string, member: string) returns (yes: bool)
    requires member != ""
    ensures yes <==> Lists(value, member)
  {
    var left := value;
    while left != ""
      invariant Lists(value, member) <==> Lists(left, member)
      decreases |left|
    {
      ListsStep(left, member);
      var comma := Find(left, ',');
      if EqualsIgnoreCase(Trimmed(left[..comma]), member) { return true; }
      if comma == |left| { return false; }
      left := left[comma + 1..];
    }
    ListsStep("", member);
    return false;
  }

  const FIELD_LIST_SEPARATOR := ", "

  function MergedVary(declared: string): string {
    if declared == "" then ACCEPT_ENCODING
    else if Lists(declared, ACCEPT_ENCODING) then declared
    else declared + (FIELD_LIST_SEPARATOR + ACCEPT_ENCODING)
  }

  lemma NameListsItself(name: string)
    requires name != "" && ',' !in name && !IsBlank(name[0]) && !IsBlank(name[|name| - 1])
    ensures Lists(name, name) && Lists([' '] + name, name)
  {
    var blank := [' '] + name;
    assert ',' !in blank;
    ListsStep(name, name);
    ListsStep(blank, name);
    assert blank[1..] == name;
    assert Trimmed(blank) == Trimmed(name) == name;
    assert name[..|name|] == name && blank[..|blank|] == blank;
  }

  lemma SeparatorSplits(name: string)
    ensures FIELD_LIST_SEPARATOR + name == [','] + ([' '] + name)
  {}

  lemma {:induction false} ListsAppended(declared: string, tail: string, member: string)
    requires Lists(tail, member)
    ensures Lists(declared + ([','] + tail), member)
    ensures Lists(declared, member) ==> Lists(declared + ([','] + tail), member)
    decreases |declared|
  {
    var s := declared + ([','] + tail);
    var comma := Find(declared, ',');
    FindInPrefix(declared, [','] + tail, ',', 0);
    ListsStep(s, member);
    if comma < |declared| {
      ListsAppended(declared[comma + 1..], tail, member);
      assert s[comma + 1..] == declared[comma + 1..] + ([','] + tail);
    } else {
      assert s[|declared|] == ',';
      assert s[|declared| + 1..] == tail;
    }
  }

  /** Caches are always told about Accept-Encoding, and nothing declared is lost. */
  lemma MergedVaryLists(declared: string)
    ensures Lists(MergedVary(declared), ACCEPT_ENCODING) && Prefix(declared, MergedVary(declared))
  {
    NameListsItself(ACCEPT_ENCODING);
    if declared != "" && !Lists(declared, ACCEPT_ENCODING) {
      SeparatorSplits(ACCEPT_ENCODING);
      ListsAppended(declared, [' '] + ACCEPT_ENCODING, ACCEPT_ENCODING);
    }
  }

  // -------------------------------------------------------------- emitted fields

  function When(condition: bool, name: string, value: string): seq<Field> {
    if condition then [(name, value)] else []
  }

  function KeptField(f: Field, varies: bool): seq<Field> {
    if IsFramingField(f.0) || (varies && EqualsIgnoreCase(f.0, VARY)) then [] else [f]
  }

  /** The handler's fields that are sent: all but the framing ones, and but Vary when a merged one replaces it. */
  function KeptFields(fs: seq<Field>, varies: bool): seq<Field> {
    if fs == [] then [] else KeptField(fs[0], varies) + KeptFields(fs[1..], varies)
  }

  predicate Lacks(r: Response, name: string) { FindHeader(r.headers, name).None? }

  predicate IsHtml(r: Response) { Prefix(HTML_TYPE, ValueOr(FindHeader(r.headers, CONTENT_TYPE), "")) }

  const HTML_TYPE := "text/html"
  const POLICY_SOURCES := "default-src 'self'; "
  const POLICY_STYLES := "style-src 'unsafe-inline'; "
  const POLICY_BASE := "base-uri 'none'; "
  const POLICY_FRAMES := "frame-ancestors 'none'; "
  const POLICY_FORMS := "form-action 'none'; "
  const POLICY_OBJECTS := "object-src 'none'"
  const HTML_POLICY := POLICY_SOURCES + POLICY_STYLES + POLICY_BASE + POLICY_FRAMES + POLICY_FORMS + POLICY_OBJECTS
  const MAX_AGE := "max-age="
  const SERVER := "Server"
  const DATE := "Date"
  const CACHE_CONTROL := "Cache-Control"
  const CONTENT_TYPE_OPTIONS := "X-Content-Type-Options"
  const REFERRER_POLICY := "Referrer-Policy"
  const CONTENT_SECURITY_POLICY := "Content-Security-Policy"
  const STRICT_TRANSPORT_SECURITY := "Strict-Transport-Security"

  /** The handler's fields, and those of content negotiation. */
  function NegotiatedFields(r: Response, w: World): seq<Field> {
    KeptFields(r.headers, Varies(r, w))
    + When(Compressed(r, w), CONTENT_ENCODING, "gzip")
    + When(Varies(r, w), VARY, MergedVary(ValueOr(FindHeader(r.headers, VARY), "")))
  }

  /** Then the defaults the handler did not set itself. */
  function DefaultedFields(r: Response, o: Options, w: World): seq<Field> {
    NegotiatedFields(r, w)
    + When(Lacks(r, DATE), DATE, w.date)
    + When(o.server != "" && !HasControlCharacter(o.server) && Lacks(r, SERVER), SERVER, o.server)
    + When(Lacks(r, CACHE_CONTROL), CACHE_CONTROL, "no-store")
    + When(Lacks(r, CONTENT_TYPE_OPTIONS), CONTENT_TYPE_OPTIONS, "nosniff")
    + When(Lacks(r, REFERRER_POLICY), REFERRER_POLICY, "no-referrer")
  }

  /** All fields that do not frame the message. */
  function PlainFields(r: Response, o: Options, w: World): seq<Field> {
    DefaultedFields(r, o, w)
    + When(IsHtml(r) && Lacks(r, CONTENT_SECURITY_POLICY), CONTENT_SECURITY_POLICY, HTML_POLICY)
    + When(o.secure && o.strictTransportSecurity && Lacks(r, STRICT_TRANSPORT_SECURITY),
           STRICT_TRANSPORT_SECURITY, MAX_AGE + Numeral(o.hstsMaxAge))
  }

  function FramingFields(r: Response, o: Options, w: World): seq<Field> {
    When(!r.streaming && !IsBodiless(r), CONTENT_LENGTH, Numeral(|BodyOf(r, w)|))
    + [(CONNECTION, if !r.streaming && o.keepAlive then KEEP_ALIVE else CLOSE)]
  }

  function EmittedFields(r: Response, o: Options, w: World): seq<Field> {
    PlainFields(r, o, w) + FramingFields(r, o, w)
  }

  const VERSION := "HTTP/1.1 "

  function StatusLine(r: Response): string { VERSION + (Numeral(r.code) + (" " + r.reason)) }

  function HeadText(r: Response, o: Options, w: World): string {
    HeadOf(StatusLine(r), Lines(EmittedFields(r, o, w)))
  }

  function HeadOf(statusLine: string, lines: string): string { (statusLine + CRLF) + (lines + CRLF) }

  // ------------------------------------------------------------------- encoding

  method AppendField(head: Buffers.Buffer, name: string, value: string)
    requires head.Valid()
    modifies head
    ensures head.Valid() && head.Readable() == old(head.Readable()) + FieldLine((name, value))
  {
    ghost var before := head.Readable();
    head.Append(name);
    head.Append(COLON_BLANK);
    head.Append(value);
    head.Append(CRLF);
    LineJoins(before, name, value);
  }

  lemma LineJoins(before: string, name: string, value: string)
    ensures before + name + COLON_BLANK + value + CRLF == before + FieldLine((name, value))
  {
    Associate(before, name, COLON_BLANK);
    Associate(before + name, COLON_BLANK, value);
    Associate(before, name, COLON_BLANK + value);
    Associate(before, LineText((name, value)), CRLF);
  }

  /** Appends a field when the condition holds; `fields` are those written so far behind `start`. */
  method AppendFieldWhen(head: Buffers.Buffer, condition: bool, name: string, value: string, ghost start: string, ghost fields: seq<Field>)
    requires head.Valid() && head.Readable() == start + Lines(fields)
    modifies head
    ensures head.Valid() && head.Readable() == start + Lines(fields + When(condition, name, value))
  {
    if condition {
      AppendField(head, name, value);
      LinesSnoc(fields, (name, value));
      Associate(start, Lines(fields), FieldLine((name, value)));
    } else {
      assert fields + When(condition, name, value) == fields;
    }
  }

  lemma KeptSnoc(fs: seq<Field>, i: nat, varies: bool)
    requires i < |fs|
    ensures KeptFields(fs[..i + 1], varies) == KeptFields(fs[..i], varies) + KeptField(fs[i], varies)
  {
    assert fs[..i + 1] == fs[..i] + [fs[i]];
    KeptAppend(fs[..i], fs[i], varies);
  }

  lemma {:induction false} KeptAppend(fs: seq<Field>, f: Field, varies: bool)
    ensures KeptFields(fs + [f], varies) == KeptFields(fs, varies) + KeptField(f, varies)
  {
    if fs == [] {
      assert (fs + [f])[1..] == [];
      assert KeptField(f, varies) + [] == [] + KeptField(f, varies);
    } else {
      KeptAppend(fs[1..], f, varies);
      assert (fs + [f])[1..] == fs[1..] + [f];
      FieldsJoin(KeptField(fs[0], varies), KeptFields(fs[1..], varies), KeptField(f, varies));
    }
  }

  method AppendStatusLine(head: Buffers.Buffer, r: Response)
    requires head.Valid()
    modifies head
    ensures head.Valid() && head.Readable() == StatusLine(r) + CRLF
  {
    head.Clear();
    head.Append(VERSION);
    head.Append(Numeral(r.code));
    head.Append(" ");
    head.Append(r.reason);
    head.Append(CRLF);
    StatusJoins(VERSION, Numeral(r.code), " ", r.reason);
  }

  lemma StatusJoins(a: string, b: string, c: string, d: string)
    ensures "" + a + b + c + d == a + (b + (c + d))
  {
    Associate(a, b, c);
    Associate(a, b + c, d);
    Associate(b, c, d);
    assert "" + a == a;
  }

  /** The handler's own fields. */
  method AppendKept(head: Buffers.Buffer, r: Response, varies: bool, ghost start: string)
    requires head.Valid() && head.Readable() == start
    modifies head
    ensures head.Valid() && head.Readable() == start + Lines(KeptFields(r.headers, varies))
  {
    Associate(start, "", "");
    for i := 0 to |r.headers|
      invariant head.Valid() && head.Readable() == start + Lines(KeptFields(r.headers[..i], varies))
    {
      var name, value := r.headers[i].0, r.headers[i].1;
      KeptSnoc(r.headers, i, varies);
      AppendFieldWhen(head, !(IsFramingField(name) || (varies && EqualsIgnoreCase(name, VARY))), name, value,
                      start, KeptFields(r.headers[..i], varies));
    }
    assert r.headers[..|r.headers|] == r.headers;
  }

  method MergeVary(declared: string) returns (merged: string)
    ensures merged == MergedVary(declared)
  {
    if declared == "" { return ACCEPT_ENCODING; }
    merged := declared;
    var listed := ListNames(declared, ACCEPT_ENCODING);
    if !listed {
      Associate(declared, FIELD_LIST_SEPARATOR, ACCEPT_ENCODING);
      merged := merged + FIELD_LIST_SEPARATOR;
      merged := merged + ACCEPT_ENCODING;
    }
  }

  method AppendNegotiated(head: Buffers.Buffer, r: Response, w: World, ghost start: string)
    requires head.Valid() && head.Readable() == start
    modifies head
    ensures head.Valid() && head.Readable() == start + Lines(NegotiatedFields(r, w))
  {
    var varies := Varies(r, w);
    AppendKept(head, r, varies, start);
    ghost var fields := KeptFields(r.headers, varies);
    AppendFieldWhen(head, Compressed(r, w), CONTENT_ENCODING, "gzip", start, fields);
    fields := fields + When(Compressed(r, w), CONTENT_ENCODING, "gzip");
    var merged := MergeVary(ValueOr(FindHeader(r.headers, VARY), ""));
    AppendFieldWhen(head, varies, VARY, merged, start, fields);
  }

  method AppendDefaults(head: Buffers.Buffer, r: Response, o: Options, w: World, ghost start: string)
    requires head.Valid() && head.Readable() == start + Lines(NegotiatedFields(r, w))
    modifies head
    ensures head.Valid() && head.Readable() == start + Lines(DefaultedFields(r, o, w))
  {
    ghost var fields := NegotiatedFields(r, w);
    AppendFieldWhen(head, Lacks(r, DATE), DATE, w.date, start, fields);
    fields := fields + When(Lacks(r, DATE), DATE, w.date);
    var names := o.server != "" && !HasControlCharacter(o.server) && Lacks(r, SERVER);
    AppendFieldWhen(head, names, SERVER, o.server, start, fields);
    fields := fields + When(names, SERVER, o.server);
    AppendFieldWhen(head, Lacks(r, CACHE_CONTROL), CACHE_CONTROL, "no-store", start, fields);
    fields := fields + When(Lacks(r, CACHE_CONTROL), CACHE_CONTROL, "no-store");
    AppendFieldWhen(head, Lacks(r, CONTENT_TYPE_OPTIONS), CONTENT_TYPE_OPTIONS, "nosniff", start, fields);
    fields := fields + When(Lacks(r, CONTENT_TYPE_OPTIONS), CONTENT_TYPE_OPTIONS, "nosniff");
    AppendFieldWhen(head, Lacks(r, REFERRER_POLICY), REFERRER_POLICY, "no-referrer", start, fields);
  }

  method AppendPolicies(head: Buffers.Buffer, r: Response, o: Options, w: World, ghost start: string)
    requires head.Valid() && head.Readable() == start + Lines(DefaultedFields(r, o, w))
    modifies head
    ensures head.Valid() && head.Readable() == start + Lines(PlainFields(r, o, w))
  {
    ghost var fields := DefaultedFields(r, o, w);
    var html := IsHtml(r) && Lacks(r, CONTENT_SECURITY_POLICY);
    AppendFieldWhen(head, html, CONTENT_SECURITY_POLICY, HTML_POLICY, start, fields);
    fields := fields + When(html, CONTENT_SECURITY_POLICY, HTML_POLICY);
    var strict := o.secure && o.strictTransportSecurity && Lacks(r, STRICT_TRANSPORT_SECURITY);
    AppendFieldWhen(head, strict, STRICT_TRANSPORT_SECURITY, MAX_AGE + Numeral(o.hstsMaxAge), start, fields);
  }

  method AppendFraming(head: Buffers.Buffer, r: Response, o: Options, w: World, body: string, ghost start: string)
    requires head.Valid() && head.Readable() == start + Lines(PlainFields(r, o, w)) && body == BodyOf(r, w)
    modifies head
    ensures head.Valid() && head.Readable() == start + Lines(EmittedFields(r, o, w))
  {
    ghost var fields := PlainFields(r, o, w);
    ghost var framed := !r.streaming && !IsBodiless(r);
    ghost var length := When(framed, CONTENT_LENGTH, Numeral(|body|));
    if r.streaming {
      Unframed(fields, length);
      AppendFieldWhen(head, true, CONNECTION, CLOSE, start, fields);
    } else if IsBodiless(r) {
      Unframed(fields, length);
      AppendFieldWhen(head, true, CONNECTION, if o.keepAlive then KEEP_ALIVE else CLOSE, start, fields);
    } else {
      AppendFieldWhen(head, true, CONTENT_LENGTH, Numeral(|body|), start, fields);
      AppendFieldWhen(head, true, CONNECTION, if o.keepAlive then KEEP_ALIVE else CLOSE, start, fields + length);
    }
    FieldsJoin(fields, length, [(CONNECTION, if !r.streaming && o.keepAlive then KEEP_ALIVE else CLOSE)]);
  }

  lemma Unframed(fields: seq<Field>, length: seq<Field>)
    ensures length == [] ==> fields + length == fields
  {}

  lemma FieldsJoin(fields: seq<Field>, length: seq<Field>, connection: seq<Field>)
    ensures (fields + length) + connection == fields + (length + connection)
  {}

  /** `encode_response`: the head it writes, the body, and whether the body is left out. */
  method EncodeResponse(head: Buffers.Buffer, r: Response, o: Options, w: World, isHead: bool)
    returns (body: string, suppressBody: bool)
    requires head.Valid()
    modifies head
    ensures head.Valid() && head.Readable() == HeadText(r, o, w)
    ensures body == BodyOf(r, w) && (suppressBody <==> r.streaming || isHead || IsBodiless(r))
  {
    body := BodyOf(r, w);
    suppressBody := r.streaming || isHead || IsBodiless(r);
    AppendStatusLine(head, r);
    ghost var start := StatusLine(r) + CRLF;
    AppendNegotiated(head, r, w, start);
    AppendDefaults(head, r, o, w, start);
    AppendPolicies(head, r, o, w, start);
    AppendFraming(head, r, o, w, body, start);
    head.Append(CRLF);
    Associate(start, Lines(EmittedFields(r, o, w)), CRLF);
  }
}
