/**
 What an encoded response head means to a reader: it ends exactly once, its fields
 read back, and the request parser's own framing and keep-alive rules recover the
 body length and the promise that were put in.
 */
module ResponseRoundTrip {
  import opened Text
  import opened Messages
  import opened Fields
  import opened FieldLines
  import opened ResponseHeads
  import AllowFields

  // ------------------------------------------------------------ the emitted fields

  predicate PlainOk(fs: seq<Field>) {
    FieldsOk(fs) && forall i :: 0 <= i < |fs| ==> !IsFramingField(fs[i].0)
  }

  lemma PlainWhen(fs: seq<Field>, condition: bool, name: string, value: string)
    requires PlainOk(fs) && (condition ==> FieldOk((name, value)) && !IsFramingField(name))
    ensures PlainOk(fs + When(condition, name, value))
  {}

  lemma {:induction false} KeptIsPlain(fs: seq<Field>, varies: bool)
    requires FieldsOk(fs)
    ensures PlainOk(KeptFields(fs, varies))
  {
    if fs != [] {
      KeptIsPlain(fs[1..], varies);
      assert FieldOk(fs[0]);
    }
  }

  /** The lengths of the framing names tell them from every other name the encoder writes. */
  lemma NotFramingByLength(name: string)
    requires |name| != 10 && |name| != 14 && |name| != 17
    ensures !IsFramingField(name)
  {}

  predicate IsName(name: string) { name != "" && IsToken(name) && !IsFramingField(name) }

  lemma ShortNames()
    ensures IsName(CONTENT_ENCODING) && IsName(VARY) && IsName(DATE) && IsName(SERVER) && IsName(CACHE_CONTROL)
  {
    NotFramingByLength(CONTENT_ENCODING);
    NotFramingByLength(VARY);
    NotFramingByLength(DATE);
    NotFramingByLength(SERVER);
    NotFramingByLength(CACHE_CONTROL);
  }

  lemma PolicyNames()
    ensures IsName(REFERRER_POLICY) && IsName(CONTENT_SECURITY_POLICY)
  {
    NotFramingByLength(REFERRER_POLICY);
    NotFramingByLength(CONTENT_SECURITY_POLICY);
  }

  lemma StrictNames()
    ensures IsName(CONTENT_TYPE_OPTIONS) && IsName(STRICT_TRANSPORT_SECURITY)
  {
    NotFramingByLength(CONTENT_TYPE_OPTIONS);
    NotFramingByLength(STRICT_TRANSPORT_SECURITY);
  }

  lemma ValueConcat(a: string, b: string)
    requires IsFieldValue(a) && IsFieldValue(b)
    ensures IsFieldValue(a + b)
  {}

  lemma NumeralIsValue(n: nat)
    ensures IsFieldValue(Numeral(n)) && NoReturns(Numeral(n))
  {}

  lemma MergedVaryIsValue(declared: string)
    requires IsFieldValue(declared)
    ensures IsFieldValue(MergedVary(declared))
  {
    ValueConcat(FIELD_LIST_SEPARATOR, ACCEPT_ENCODING);
    if declared != "" { ValueConcat(declared, FIELD_LIST_SEPARATOR + ACCEPT_ENCODING); }
  }

  lemma FoundIsValue(r: Response, name: string)
    requires ResponseOk(r)
    ensures IsFieldValue(ValueOr(FindHeader(r.headers, name), ""))
  {
    if FindHeader(r.headers, name).Some? {
      var i :| 0 <= i < |r.headers| && FindHeader(r.headers, name).value == r.headers[i].1;
      assert FieldOk(r.headers[i]);
    }
  }

  lemma OwnValues()
    ensures IsFieldValue("gzip") && IsFieldValue("no-store") && IsFieldValue("nosniff") && IsFieldValue("no-referrer")
    ensures IsFieldValue(MAX_AGE)
  {}

  lemma PolicyIsValue()
    ensures IsFieldValue(HTML_POLICY)
  {
    assert IsFieldValue(POLICY_SOURCES) && IsFieldValue(POLICY_STYLES) && IsFieldValue(POLICY_BASE);
    assert IsFieldValue(POLICY_FRAMES) && IsFieldValue(POLICY_FORMS) && IsFieldValue(POLICY_OBJECTS);
    var policy := POLICY_SOURCES;
    ValueConcat(policy, POLICY_STYLES);
    policy := policy + POLICY_STYLES;
    ValueConcat(policy, POLICY_BASE);
    policy := policy + POLICY_BASE;
    ValueConcat(policy, POLICY_FRAMES);
    policy := policy + POLICY_FRAMES;
    ValueConcat(policy, POLICY_FORMS);
    ValueConcat(policy + POLICY_FORMS, POLICY_OBJECTS);
  }

  lemma PlainFieldsOk(r: Response, o: Options, w: World)
    requires ResponseOk(r) && WorldOk(w)
    ensures PlainOk(PlainFields(r, o, w))
  {
    PolicyNames();
    StrictNames();
    OwnValues();
    PolicyIsValue();
    NegotiatedOk(r, w);
    DefaultedOk(r, o, w);
    var fs := DefaultedFields(r, o, w);
    var html := IsHtml(r) && Lacks(r, CONTENT_SECURITY_POLICY);
    PlainWhen(fs, html, CONTENT_SECURITY_POLICY, HTML_POLICY);
    fs := fs + When(html, CONTENT_SECURITY_POLICY, HTML_POLICY);
    NumeralIsValue(o.hstsMaxAge);
    ValueConcat(MAX_AGE, Numeral(o.hstsMaxAge));
    PlainWhen(fs, o.secure && o.strictTransportSecurity && Lacks(r, STRICT_TRANSPORT_SECURITY),
              STRICT_TRANSPORT_SECURITY, MAX_AGE + Numeral(o.hstsMaxAge));
  }

  lemma NegotiatedOk(r: Response, w: World)
    requires ResponseOk(r)
    ensures PlainOk(NegotiatedFields(r, w))
  {
    ShortNames();
    OwnValues();
    var kept := KeptFields(r.headers, Varies(r, w));
    KeptIsPlain(r.headers, Varies(r, w));
    PlainWhen(kept, Compressed(r, w), CONTENT_ENCODING, "gzip");
    FoundIsValue(r, VARY);
    MergedVaryIsValue(ValueOr(FindHeader(r.headers, VARY), ""));
    PlainWhen(kept + When(Compressed(r, w), CONTENT_ENCODING, "gzip"), Varies(r, w), VARY,
              MergedVary(ValueOr(FindHeader(r.headers, VARY), "")));
  }

  lemma DefaultedOk(r: Response, o: Options, w: World)
    requires WorldOk(w) && PlainOk(NegotiatedFields(r, w))
    ensures PlainOk(DefaultedFields(r, o, w))
  {
    ShortNames();
    PolicyNames();
    StrictNames();
    OwnValues();
    var fs := NegotiatedFields(r, w);
    PlainWhen(fs, Lacks(r, DATE), DATE, w.date);
    fs := fs + When(Lacks(r, DATE), DATE, w.date);
    var names := o.server != "" && !HasControlCharacter(o.server) && Lacks(r, SERVER);
    assert names ==> IsFieldValue(o.server);
    PlainWhen(fs, names, SERVER, o.server);
    fs := fs + When(names, SERVER, o.server);
    PlainWhen(fs, Lacks(r, CACHE_CONTROL), CACHE_CONTROL, "no-store");
    fs := fs + When(Lacks(r, CACHE_CONTROL), CACHE_CONTROL, "no-store");
    PlainWhen(fs, Lacks(r, CONTENT_TYPE_OPTIONS), CONTENT_TYPE_OPTIONS, "nosniff");
    fs := fs + When(Lacks(r, CONTENT_TYPE_OPTIONS), CONTENT_TYPE_OPTIONS, "nosniff");
    PlainWhen(fs, Lacks(r, REFERRER_POLICY), REFERRER_POLICY, "no-referrer");
  }

  lemma FramingOk(r: Response, o: Options, w: World)
    ensures FieldsOk(FramingFields(r, o, w))
  {
    assert IsToken(CONTENT_LENGTH) && IsToken(CONNECTION);
    assert IsFieldValue(KEEP_ALIVE) && IsFieldValue(CLOSE);
    NumeralIsValue(|BodyOf(r, w)|);
  }

  lemma EmittedOk(r: Response, o: Options, w: World)
    requires ResponseOk(r) && WorldOk(w)
    ensures FieldsOk(EmittedFields(r, o, w)) && EmittedFields(r, o, w) != []
  {
    PlainFieldsOk(r, o, w);
    FramingOk(r, o, w);
  }

  // ---------------------------------------------------------------- the head as text

  lemma StatusPlain(r: Response)
    requires ResponseOk(r)
    ensures NoReturns(StatusLine(r))
  {
    NumeralIsValue(r.code);
    PlainConcat(" ", r.reason);
    PlainConcat(Numeral(r.code), " " + r.reason);
    assert NoReturns(VERSION);
    PlainConcat(VERSION, Numeral(r.code) + (" " + r.reason));
  }

  lemma PlainConcat(a: string, b: string)
    requires NoReturns(a) && NoReturns(b)
    ensures NoReturns(a + b)
  {}

  /** The head has one blank line, at its end. */
  lemma HeadEndsOnce(r: Response, o: Options, w: World)
    requires ResponseOk(r) && WorldOk(w)
    ensures var text := HeadText(r, o, w);
            |text| >= 4 && FindText(text, TERMINATOR) == |text| - 4
  {
    var rest := Lines(EmittedFields(r, o, w)) + CRLF;
    EmittedOk(r, o, w);
    StatusPlain(r);
    OnlyEndTerminates(EmittedFields(r, o, w));
    Associate(StatusLine(r), CRLF, rest);
    LineSkipped(StatusLine(r), rest);
  }

  /** Where the field lines of a head begin and end. */
  function FieldsBegin(r: Response): nat { |StatusLine(r)| + 2 }

  function FieldsEnd(r: Response, o: Options, w: World): nat { FieldsBegin(r) + |Lines(EmittedFields(r, o, w))| }

  lemma FieldsStand(r: Response, o: Options, w: World)
    ensures var text := HeadText(r, o, w);
            FieldsEnd(r, o, w) == |text| - 2 && text[FieldsBegin(r)..FieldsEnd(r, o, w)] == Lines(EmittedFields(r, o, w))
  {
    LinesStand(StatusLine(r), Lines(EmittedFields(r, o, w)), HeadText(r, o, w), FieldsBegin(r), FieldsEnd(r, o, w));
  }

  lemma LinesStand(statusLine: string, lines: string, text: string, begin: nat, end: nat)
    requires text == HeadOf(statusLine, lines) && begin == |statusLine| + 2 && end == begin + |lines|
    ensures end == |text| - 2 && text[begin..end] == lines
  {}

  /** The emitted fields read back: every name, and every value without its outer blanks, in order. */
  lemma HeadReadsBack(r: Response, o: Options, w: World, room: nat)
    requires ResponseOk(r) && WorldOk(w) && |EmittedFields(r, o, w)| <= room
    ensures FieldsEnd(r, o, w) <= |HeadText(r, o, w)|
    ensures Reads(HeadText(r, o, w), FieldsBegin(r), FieldsEnd(r, o, w), room, TrimmedFields(EmittedFields(r, o, w)))
  {
    EmittedOk(r, o, w);
    FieldsStand(r, o, w);
    FieldsReadBack(HeadText(r, o, w), FieldsBegin(r), FieldsEnd(r, o, w), EmittedFields(r, o, w), room);
  }

  // -------------------------------------------------------------- what a reader learns

  /** Exactly one field has this name: the one at `i`. */
  predicate OnlyAt(fs: seq<Field>, name: string, i: nat) {
    i < |fs| && forall k :: 0 <= k < |fs| ==> (EqualsIgnoreCase(fs[k].0, name) <==> k == i)
  }

  predicate Framed(r: Response) { !r.streaming && !IsBodiless(r) }

  lemma FramingNames()
    ensures EqualsIgnoreCase(CONNECTION, CONNECTION) && EqualsIgnoreCase(CONTENT_LENGTH, CONTENT_LENGTH)
    ensures !EqualsIgnoreCase(CONNECTION, CONTENT_LENGTH) && !EqualsIgnoreCase(CONTENT_LENGTH, CONNECTION)
    ensures !EqualsIgnoreCase(CONNECTION, TRANSFER_ENCODING) && !EqualsIgnoreCase(CONTENT_LENGTH, TRANSFER_ENCODING)
  {}

  /** One Connection; one Content-Length, right before it, unless the response has no such body; no Transfer-Encoding. */
  lemma FramingFieldsAreUnique(r: Response, o: Options, w: World)
    requires ResponseOk(r) && WorldOk(w)
    ensures var (fs, n) := (EmittedFields(r, o, w), |EmittedFields(r, o, w)|);
            && OnlyAt(fs, CONNECTION, n - 1)
            && fs[n - 1].1 == (if !r.streaming && o.keepAlive then KEEP_ALIVE else CLOSE)
            && (Framed(r) ==> n >= 2 && OnlyAt(fs, CONTENT_LENGTH, n - 2) && fs[n - 2].1 == Numeral(|BodyOf(r, w)|))
            && (!Framed(r) ==> Absent(fs, CONTENT_LENGTH))
            && Absent(fs, TRANSFER_ENCODING)
  {
    PlainFieldsOk(r, o, w);
    FramingNames();
    AppendedFraming(PlainFields(r, o, w), FramingFields(r, o, w), Framed(r), Numeral(|BodyOf(r, w)|),
                    if !r.streaming && o.keepAlive then KEEP_ALIVE else CLOSE);
  }

  lemma AppendedFraming(plain: seq<Field>, framing: seq<Field>, framed: bool, length: string, connection: string)
    requires PlainOk(plain) && framing == When(framed, CONTENT_LENGTH, length) + [(CONNECTION, connection)]
    requires EqualsIgnoreCase(CONNECTION, CONNECTION) && EqualsIgnoreCase(CONTENT_LENGTH, CONTENT_LENGTH)
    requires !EqualsIgnoreCase(CONNECTION, CONTENT_LENGTH) && !EqualsIgnoreCase(CONTENT_LENGTH, CONNECTION)
    requires !EqualsIgnoreCase(CONNECTION, TRANSFER_ENCODING) && !EqualsIgnoreCase(CONTENT_LENGTH, TRANSFER_ENCODING)
    ensures var (fs, n) := (plain + framing, |plain + framing|);
            && OnlyAt(fs, CONNECTION, n - 1) && fs[n - 1].1 == connection
            && (framed ==> n >= 2 && OnlyAt(fs, CONTENT_LENGTH, n - 2) && fs[n - 2].1 == length)
            && (!framed ==> Absent(fs, CONTENT_LENGTH))
            && Absent(fs, TRANSFER_ENCODING)
  {
    var (fs, p) := (plain + framing, |plain|);
    assert forall k :: 0 <= k < p ==> fs[k] == plain[k] && !IsFramingField(fs[k].0);
    if framed {
      assert fs[p] == (CONTENT_LENGTH, length) && fs[p + 1] == (CONNECTION, connection) && |fs| == p + 2;
    } else {
      assert fs[p] == (CONNECTION, connection) && |fs| == p + 1;
    }
  }

  lemma {:induction false} UntrimmedNumeral(n: nat)
    ensures Trimmed(Numeral(n)) == Numeral(n) && ParseDecimal(Numeral(n)) == if n < UINT64_LIMIT then Number(n) else OutOfRange
  {
    NumeralRoundTrip(n);
    var s := Numeral(n);
    assert IsDigit(s[0]) && IsDigit(s[|s| - 1]);
  }

  /** One declared length is what the framing rules answer. */
  lemma DeclaredLength(s: string, hs: seq<Header>, at: nat, length: nat, maxBody: nat)
    requires HeadersInside(hs, |s|) && at < |hs| && length < UINT64_LIMIT && Slice(s, hs[at].value) == Numeral(length)
    requires forall k :: 0 <= k < |hs| ==> !Names(s, hs[k], "Transfer-Encoding") && (Names(s, hs[k], "Content-Length") <==> k == at)
    ensures ContentLength(s, hs, maxBody) == if length <= maxBody then Ok(length) else Err(BodyTooLarge)
  {
    UntrimmedNumeral(length);
    assert Names(s, hs[at], "Content-Length");
    LengthScanMeaning(s, hs, 0, false, None, length);
  }

  lemma NoDeclaredLength(s: string, hs: seq<Header>, maxBody: nat)
    requires HeadersInside(hs, |s|)
    requires forall k :: 0 <= k < |hs| ==> !Names(s, hs[k], "Transfer-Encoding") && !Names(s, hs[k], "Content-Length")
    ensures ContentLength(s, hs, maxBody) == Ok(0)
  {
    LengthScanMeaning(s, hs, 0, false, None, 0);
  }

  /** The request parser's framing rules recover the body length. */
  lemma LengthReadsBack(r: Response, o: Options, w: World, s: string, hs: seq<Header>, maxBody: nat)
    requires ResponseOk(r) && WorldOk(w) && HeadersInside(hs, |s|) && HeaderTexts(s, hs) == TrimmedFields(EmittedFields(r, o, w))
    requires |BodyOf(r, w)| < UINT64_LIMIT
    ensures ContentLength(s, hs, maxBody) ==
            if !Framed(r) then Ok(0) else if |BodyOf(r, w)| <= maxBody then Ok(|BodyOf(r, w)|) else Err(BodyTooLarge)
  {
    FramingFieldsAreUnique(r, o, w);
    LengthOf(s, hs, EmittedFields(r, o, w), Framed(r), |BodyOf(r, w)|, maxBody);
  }

  lemma LengthOf(s: string, hs: seq<Header>, fs: seq<Field>, framed: bool, length: nat, maxBody: nat)
    requires HeadersInside(hs, |s|) && HeaderTexts(s, hs) == TrimmedFields(fs) && length < UINT64_LIMIT
    requires Absent(fs, TRANSFER_ENCODING)
    requires if framed then |fs| >= 2 && OnlyAt(fs, CONTENT_LENGTH, |fs| - 2) && fs[|fs| - 2].1 == Numeral(length)
             else Absent(fs, CONTENT_LENGTH)
    ensures ContentLength(s, hs, maxBody) ==
            if !framed then Ok(0) else if length <= maxBody then Ok(length) else Err(BodyTooLarge)
  {
    NamesOf(s, hs, fs);
    if framed {
      UntrimmedNumeral(length);
      DeclaredLength(s, hs, |fs| - 2, length, maxBody);
    } else {
      NoDeclaredLength(s, hs, maxBody);
    }
  }

  lemma NamesOf(s: string, hs: seq<Header>, fs: seq<Field>)
    requires HeadersInside(hs, |s|) && HeaderTexts(s, hs) == TrimmedFields(fs)
    ensures |hs| == |fs|
    ensures forall k :: 0 <= k < |hs| ==>
              && (Names(s, hs[k], "Transfer-Encoding") <==> EqualsIgnoreCase(fs[k].0, TRANSFER_ENCODING))
              && (Names(s, hs[k], "Content-Length") <==> EqualsIgnoreCase(fs[k].0, CONTENT_LENGTH))
              && (Names(s, hs[k], "Connection") <==> EqualsIgnoreCase(fs[k].0, CONNECTION))
              && Slice(s, hs[k].value) == Trimmed(fs[k].1)
  {
    TextsOf(s, hs, fs);
  }

  lemma TextsOf(s: string, hs: seq<Header>, fs: seq<Field>)
    requires HeadersInside(hs, |s|) && HeaderTexts(s, hs) == TrimmedFields(fs)
    ensures |hs| == |fs|
    ensures forall k :: 0 <= k < |hs| ==> Slice(s, hs[k].name) == fs[k].0 && Slice(s, hs[k].value) == Trimmed(fs[k].1)
  {
    forall k | 0 <= k < |hs| ensures Slice(s, hs[k].name) == fs[k].0 && Slice(s, hs[k].value) == Trimmed(fs[k].1) {
      assert HeaderTexts(s, hs)[k] == TrimmedFields(fs)[k];
    }
  }

  lemma TokenListsItself(token: string)
    requires AllowFields.IsMember(token)
    ensures Trimmed(token) == token && ListMembers(token, ',') == [token]
  {
    AllowFields.FirstMember([], token, "");
    assert [] + token + "" == token;
  }

  lemma ConnectionToken(open: bool, token: string)
    requires token == if open then KEEP_ALIVE else CLOSE
    ensures AllowFields.IsMember(token) && (EqualsIgnoreCase(token, "close") <==> !open)
  {}

  /** One Connection field with one token decides for a reader. */
  lemma OneToken(s: string, hs: seq<Header>, at: nat, token: string)
    requires HeadersInside(hs, |s|) && at < |hs| && Slice(s, hs[at].value) == token && AllowFields.IsMember(token)
    requires forall k :: 0 <= k < |hs| ==> (Names(s, hs[k], "Connection") <==> k == at)
    ensures ConnectionNames(s, hs, "close") <==> EqualsIgnoreCase(token, "close")
  {
    TokenListsItself(token);
    assert Names(s, hs[at], "Connection") && ListMembers(Slice(s, hs[at].value), ',')[0] == token;
  }

  lemma PromiseOf(s: string, hs: seq<Header>, fs: seq<Field>, open: bool)
    requires HeadersInside(hs, |s|) && HeaderTexts(s, hs) == TrimmedFields(fs)
    requires fs != [] && OnlyAt(fs, CONNECTION, |fs| - 1) && fs[|fs| - 1].1 == if open then KEEP_ALIVE else CLOSE
    ensures ResolveKeepAlive(s, hs, true) <==> open
  {
    var token := fs[|fs| - 1].1;
    NamesOf(s, hs, fs);
    ConnectionToken(open, token);
    TokenListsItself(token);
    OneToken(s, hs, |fs| - 1, token);
  }

  /** A reader concludes that the connection stays open exactly when the encoder was told to promise it and the response
      is not a stream. */
  lemma PromiseReadsBack(r: Response, o: Options, w: World, s: string, hs: seq<Header>)
    requires ResponseOk(r) && WorldOk(w) && HeadersInside(hs, |s|) && HeaderTexts(s, hs) == TrimmedFields(EmittedFields(r, o, w))
    ensures ResolveKeepAlive(s, hs, true) <==> o.keepAlive && !r.streaming
  {
    FramingFieldsAreUnique(r, o, w);
    PromiseOf(s, hs, EmittedFields(r, o, w), !r.streaming && o.keepAlive);
  }

  /** The whole round trip: one blank line, every field in order, the body length and the promise. */
  lemma HeadRoundTrip(r: Response, o: Options, w: World, room: nat, maxBody: nat) returns (text: string, fields: seq<Header>)
    requires ResponseOk(r) && WorldOk(w) && |EmittedFields(r, o, w)| <= room && |BodyOf(r, w)| < UINT64_LIMIT
    ensures text == HeadText(r, o, w) && |text| >= 4 && FindText(text, TERMINATOR) == |text| - 4
    ensures FieldsBegin(r) <= |text| - 2 && ParseFields(text, FieldsBegin(r), |text| - 2, room) == Ok(fields)
    ensures HeadersInside(fields, |text|) && HeaderTexts(text, fields) == TrimmedFields(EmittedFields(r, o, w))
    ensures ResolveKeepAlive(text, fields, true) <==> o.keepAlive && !r.streaming
    ensures ContentLength(text, fields, maxBody) ==
            if !Framed(r) then Ok(0) else if |BodyOf(r, w)| <= maxBody then Ok(|BodyOf(r, w)|) else Err(BodyTooLarge)
  {
    text := HeadText(r, o, w);
    HeadEndsOnce(r, o, w);
    FieldsStand(r, o, w);
    HeadReadsBack(r, o, w, room);
    fields := ParseFields(text, FieldsBegin(r), |text| - 2, room).value;
    LengthReadsBack(r, o, w, text, fields, maxBody);
    PromiseReadsBack(r, o, w, text, fields);
  }
}
