/**
 Header field lines as the response encoder writes them (src/response_encoder.cpp),
 read back by the request parser's own field reader.
 */
module FieldLines {
  import opened Text
  import opened Fields

  const COLON_BLANK := ": "

  type Field = (string, string)

  /** A name and a value that `set_header` accepts. */
  predicate FieldOk(f: Field) { f.0 != "" && IsToken(f.0) && IsFieldValue(f.1) }

  predicate FieldsOk(fs: seq<Field>) { forall i :: 0 <= i < |fs| ==> FieldOk(fs[i]) }

  /** No field has this name. */
  predicate Absent(fs: seq<Field>, name: string) { forall k :: 0 <= k < |fs| ==> !EqualsIgnoreCase(fs[k].0, name) }

  function LineText(f: Field): string { f.0 + (COLON_BLANK + f.1) }

  function FieldLine(f: Field): string { LineText(f) + CRLF }

  function Lines(fs: seq<Field>): string {
    if fs == [] then "" else FieldLine(fs[0]) + Lines(fs[1..])
  }

  function TrimmedFields(fs: seq<Field>): (r: seq<Field>)
    ensures |r| == |fs|
  {
    seq(|fs|, i requires 0 <= i < |fs| => (fs[i].0, Trimmed(fs[i].1)))
  }

  lemma {:induction false} LinesSnoc(fs: seq<Field>, f: Field)
    ensures Lines(fs + [f]) == Lines(fs) + FieldLine(f)
  {
    if fs == [] {
      assert (fs + [f])[1..] == [];
      Associate(FieldLine(f), "", "");
    } else {
      LinesSnoc(fs[1..], f);
      assert (fs + [f])[1..] == fs[1..] + [f];
      Associate(FieldLine(fs[0]), Lines(fs[1..]), FieldLine(f));
    }
  }

  // --------------------------------------------------------------------- reading

  lemma TokenCharacter(c: char)
    requires IsTokenCharacter(c)
    ensures c != ':' && c != CR && c != LF && !IsBlank(c)
  {}

  lemma LineCharacters(f: Field, k: nat)
    requires FieldOk(f) && k < |LineText(f)|
    ensures LineText(f)[k] != CR
    ensures k < |f.0| ==> LineText(f)[k] == f.0[k] && LineText(f)[k] != ':' && !IsBlank(LineText(f)[k])
    ensures k == |f.0| ==> LineText(f)[k] == ':'
    ensures k == |f.0| + 1 ==> LineText(f)[k] == ' '
    ensures k > |f.0| + 1 ==> LineText(f)[k] == f.1[k - |f.0| - 2]
  {
    if k < |f.0| { TokenCharacter(f.0[k]); }
  }

  lemma TrimmedStep(s: string, lo: nat, hi: nat)
    requires lo < hi <= |s|
    ensures Trimmed(s[lo..hi]) ==
            if IsBlank(s[lo]) then Trimmed(s[lo + 1..hi])
            else if IsBlank(s[hi - 1]) then Trimmed(s[lo..hi - 1])
            else s[lo..hi]
  {
    var v := s[lo..hi];
    assert v[0] == s[lo] && v[|v| - 1] == s[hi - 1];
    assert v[1..] == s[lo + 1..hi] && v[..|v| - 1] == s[lo..hi - 1];
  }

  /** The parser's trimming of a span reads as the trimmed text. */
  lemma {:induction false} TrimReads(s: string, lo: nat, hi: nat)
    requires lo <= hi <= |s|
    ensures Slice(s, Trim(s, Span(lo, hi))) == Trimmed(s[lo..hi])
    decreases hi - lo
  {
    if lo < hi && IsBlank(s[lo]) {
      TrimReads(s, lo + 1, hi);
      TrimmedStep(s, lo, hi);
    } else if lo < hi && IsBlank(s[hi - 1]) {
      TrimReads(s, lo, hi - 1);
      TrimmedStep(s, lo, hi);
    } else {
      NothingTrimmed(s, lo, hi);
    }
  }

  lemma NothingTrimmed(s: string, lo: nat, hi: nat)
    requires lo <= hi <= |s| && (lo < hi ==> !IsBlank(s[lo]) && !IsBlank(s[hi - 1]))
    ensures Trim(s, Span(lo, hi)) == Span(lo, hi) && Trimmed(s[lo..hi]) == s[lo..hi]
  {
    if lo < hi { TrimmedStep(s, lo, hi); }
  }

  /** The trimmed value of a line, wherever the line stands. */
  lemma ValueReads(s: string, lo: nat, hi: nat, v: string)
    requires lo < hi <= |s| && s[lo] == ' ' && v == s[lo + 1..hi]
    ensures Slice(s, Trim(s, Span(lo, hi))) == Trimmed(v)
  {
    TrimReads(s, lo, hi);
    assert s[lo..hi][0] == ' ' && s[lo..hi][1..] == v;
  }

  /** A line that stands at `lo` ends where its CRLF is, and its first colon is behind the name. */
  lemma LineFound(s: string, lo: nat, hi: nat, f: Field)
    requires FieldOk(f) && lo + |FieldLine(f)| <= hi <= |s| && s[lo..lo + |FieldLine(f)|] == FieldLine(f)
    ensures var end := lo + |LineText(f)|;
            && FindText(s[..hi], CRLF, lo) == end && Find(s[..end], ':', lo) == lo + |f.0|
            && s[lo..lo + |f.0|] == f.0 && s[lo + |f.0| + 1] == ' ' && s[lo + |f.0| + 2..end] == f.1
            && !IsBlank(s[lo])
  {
    var end, colon := lo + |LineText(f)|, lo + |f.0|;
    assert s[end] == CR && s[end + 1] == LF by {
      assert s[lo..lo + |FieldLine(f)|][|LineText(f)|] == s[end] && s[lo..lo + |FieldLine(f)|][|LineText(f)| + 1] == s[end + 1];
    }
    forall i | lo <= i < end ensures s[i] == LineText(f)[i - lo] && s[i] != CR {
      assert s[lo..lo + |FieldLine(f)|][i - lo] == s[i];
      LineCharacters(f, i - lo);
    }
    EndFound(s[..hi], lo, end);
    LineParts(s, lo, f);
    ColonFound(s[..end], lo, colon);
  }

  lemma LineParts(s: string, lo: nat, f: Field)
    requires FieldOk(f) && lo + |LineText(f)| <= |s| && forall i :: lo <= i < lo + |LineText(f)| ==> s[i] == LineText(f)[i - lo]
    ensures var (colon, end) := (lo + |f.0|, lo + |LineText(f)|);
            && colon + 2 <= end && s[lo..colon] == f.0 && s[colon] == ':' && s[colon + 1] == ' ' && s[colon + 2..end] == f.1
            && !IsBlank(s[lo]) && forall i :: lo <= i < colon ==> s[i] != ':'
  {
    forall k | 0 <= k < |LineText(f)|
      ensures k < |f.0| ==> s[lo + k] == f.0[k] && s[lo + k] != ':' && !IsBlank(s[lo + k])
      ensures k == |f.0| ==> s[lo + k] == ':'
      ensures k == |f.0| + 1 ==> s[lo + k] == ' '
      ensures k > |f.0| + 1 ==> s[lo + k] == f.1[k - |f.0| - 2]
    {
      LineCharacters(f, k);
    }
  }

  lemma EndFound(s: string, lo: nat, end: nat)
    requires lo <= end && end + 2 <= |s| && s[end] == CR && s[end + 1] == LF
    requires forall i :: lo <= i < end ==> s[i] != CR
    ensures FindText(s, CRLF, lo) == end
  {
    assert s[end..end + 2] == CRLF;
    assert HasAt(s, CRLF, end);
    forall i | lo <= i < end ensures !HasAt(s, CRLF, i) {
      if i + 2 <= |s| { assert s[i..i + 2][0] == s[i]; }
    }
  }

  lemma ColonFound(s: string, lo: nat, at: nat)
    requires lo <= at < |s| && s[at] == ':' && forall i :: lo <= i < at ==> s[i] != ':'
    ensures Find(s, ':', lo) == at
  {}

  lemma {:induction false} TrimmedIsValue(v: string)
    requires IsFieldValue(v)
    ensures IsFieldValue(Trimmed(v))
  {
    if v != "" && IsBlank(v[0]) {
      TrimmedIsValue(v[1..]);
    } else if v != "" && IsBlank(v[|v| - 1]) {
      TrimmedIsValue(v[..|v| - 1]);
    }
  }

  lemma FieldAtIs(s: string, lo: nat, colon: nat, end: nat)
    requires lo < colon < end <= |s| && IsToken(s[lo..colon])
    requires IsFieldValue(Slice(s, Trim(s, Span(colon + 1, end))))
    ensures FieldAt(s, lo, colon, end) == Ok(Header(Span(lo, colon), Trim(s, Span(colon + 1, end))))
  {}

  lemma FieldAtReads(s: string, lo: nat, colon: nat, end: nat, f: Field) returns (h: Header)
    requires FieldOk(f) && lo < colon && colon + 2 <= end <= |s|
    requires s[lo..colon] == f.0 && s[colon + 1] == ' ' && s[colon + 2..end] == f.1
    ensures FieldAt(s, lo, colon, end) == Ok(h) && Inside(h.name, |s|) && Inside(h.value, |s|)
    ensures Slice(s, h.name) == f.0 && Slice(s, h.value) == Trimmed(f.1)
  {
    ValueReads(s, colon + 1, end, f.1);
    TrimmedIsValue(f.1);
    FieldAtIs(s, lo, colon, end);
    h := Header(Span(lo, colon), Trim(s, Span(colon + 1, end)));
  }

  lemma ParseFieldAt(s: string, lo: nat, colon: nat, end: nat)
    requires lo <= colon < end <= |s| && Find(s[..end], ':', lo) == colon && !IsBlank(s[lo])
    ensures ParseField(s, lo, end) == FieldAt(s, lo, colon, end)
  {}

  lemma ParseFieldReads(s: string, lo: nat, end: nat, f: Field) returns (h: Header)
    requires FieldOk(f) && lo + |LineText(f)| == end <= |s| && Find(s[..end], ':', lo) == lo + |f.0|
    requires s[lo..lo + |f.0|] == f.0 && s[lo + |f.0| + 1] == ' ' && s[lo + |f.0| + 2..end] == f.1 && !IsBlank(s[lo])
    ensures ParseField(s, lo, end) == Ok(h) && Inside(h.name, |s|) && Inside(h.value, |s|)
    ensures Slice(s, h.name) == f.0 && Slice(s, h.value) == Trimmed(f.1)
  {
    var colon := lo + |f.0|;
    ParseFieldAt(s, lo, colon, end);
    h := FieldAtReads(s, lo, colon, end, f);
  }

  lemma NextFieldIs(s: string, lo: nat, hi: nat, end: nat, h: Header)
    requires lo < hi <= |s| && FindText(s[..hi], CRLF, lo) == end < hi && ParseField(s, lo, end) == Ok(h)
    ensures NextField(s, lo, hi) == Ok((h, end + 2))
  {}

  lemma NextFieldReads(s: string, lo: nat, hi: nat, f: Field) returns (h: Header)
    requires FieldOk(f) && lo + |FieldLine(f)| <= hi <= |s| && s[lo..lo + |FieldLine(f)|] == FieldLine(f)
    ensures NextField(s, lo, hi) == Ok((h, lo + |FieldLine(f)|)) && Inside(h.name, |s|) && Inside(h.value, |s|)
    ensures Slice(s, h.name) == f.0 && Slice(s, h.value) == Trimmed(f.1)
  {
    LineFound(s, lo, hi, f);
    var end := lo + |LineText(f)|;
    h := ParseFieldReads(s, lo, end, f);
    NextFieldIs(s, lo, hi, end, h);
  }

  lemma FirstTrimmed(fs: seq<Field>)
    requires fs != []
    ensures TrimmedFields(fs) == [(fs[0].0, Trimmed(fs[0].1))] + TrimmedFields(fs[1..])
  {}

  /** The field lines of a span read as these names and values. */
  predicate Reads(s: string, lo: nat, hi: nat, room: nat, texts: seq<Field>)
    requires lo <= hi <= |s|
  {
    var r := ParseFields(s, lo, hi, room);
    r.Ok? && HeaderTexts(s, r.value) == texts
  }

  /** The same, for any reader of fields. */
  ghost predicate Collects(read: Reader, s: string, lo: nat, hi: nat, room: nat, texts: seq<Field>)
    requires lo <= hi && Advances(read, hi)
  {
    var r := Collect(read, lo, hi, room);
    r.Ok? && HeadersInside(r.value, |s|) && HeaderTexts(s, r.value) == texts
  }

  lemma FirstTexts(s: string, h: Header, rest: seq<Header>)
    requires Inside(h.name, |s|) && Inside(h.value, |s|) && HeadersInside(rest, |s|)
    ensures HeadersInside([h] + rest, |s|)
    ensures HeaderTexts(s, [h] + rest) == [(Slice(s, h.name), Slice(s, h.value))] + HeaderTexts(s, rest)
  {}

  lemma CollectsCons(read: Reader, s: string, lo: nat, next: nat, hi: nat, room: nat, h: Header, texts: seq<Field>)
    requires lo < next <= hi && Advances(read, hi) && room > 0 && read(lo) == Ok((h, next))
    requires Inside(h.name, |s|) && Inside(h.value, |s|) && Collects(read, s, next, hi, room - 1, texts)
    ensures Collects(read, s, lo, hi, room, [(Slice(s, h.name), Slice(s, h.value))] + texts)
  {
    FirstTexts(s, h, Collect(read, next, hi, room - 1).value);
  }

  lemma LinesSplit(s: string, lo: nat, hi: nat, a: string, b: string)
    requires lo <= hi <= |s| && s[lo..hi] == a + b
    ensures lo + |a| <= hi && s[lo..lo + |a|] == a && s[lo + |a|..hi] == b
  {
    assert s[lo..hi][..|a|] == s[lo..lo + |a|] && s[lo..hi][|a|..] == s[lo + |a|..hi];
  }

  /** The first of the lines, as a reader finds it. */
  lemma FirstLine(read: Reader, s: string, lo: nat, hi: nat, fs: seq<Field>) returns (h: Header, next: nat)
    requires FieldsOk(fs) && fs != [] && lo <= hi <= |s| && s[lo..hi] == Lines(fs) && ReadsFields(read, s, hi)
    ensures lo < next <= hi && s[next..hi] == Lines(fs[1..]) && read(lo) == Ok((h, next))
    ensures Inside(h.name, |s|) && Inside(h.value, |s|) && Slice(s, h.name) == fs[0].0 && Slice(s, h.value) == Trimmed(fs[0].1)
  {
    LinesSplit(s, lo, hi, FieldLine(fs[0]), Lines(fs[1..]));
    next := lo + |FieldLine(fs[0])|;
    h := NextFieldReads(s, lo, hi, fs[0]);
  }

  lemma {:induction false} LinesCollected(read: Reader, s: string, lo: nat, hi: nat, fs: seq<Field>, room: nat)
    requires FieldsOk(fs) && |fs| <= room && lo <= hi <= |s| && s[lo..hi] == Lines(fs)
    requires Advances(read, hi) && ReadsFields(read, s, hi)
    ensures Collects(read, s, lo, hi, room, TrimmedFields(fs))
    decreases |fs|
  {
    if fs != [] {
      var h, next := FirstLine(read, s, lo, hi, fs);
      LinesCollected(read, s, next, hi, fs[1..], room - 1);
      CollectsCons(read, s, lo, next, hi, room, h, TrimmedFields(fs[1..]));
      FirstTrimmed(fs);
    }
  }

  /** Written fields read back: the names, and the values without their outer blanks, in order. */
  lemma FieldsReadBack(s: string, lo: nat, hi: nat, fs: seq<Field>, room: nat)
    requires FieldsOk(fs) && |fs| <= room && lo <= hi <= |s| && s[lo..hi] == Lines(fs)
    ensures Reads(s, lo, hi, room, TrimmedFields(fs))
  {
    LinesCollected(FieldReader(s, hi), s, lo, hi, fs, room);
  }

  // ------------------------------------------------------------------ one terminator

  lemma {:induction false} FindTextShift(a: string, b: string, pattern: string, k: nat)
    requires pattern != "" && k <= |b|
    ensures FindText(a + b, pattern, |a| + k) == |a| + FindText(b, pattern, k)
    decreases |b| - k
  {
    if k < |b| {
      if k + |pattern| <= |b| {
        assert (a + b)[|a| + k..|a| + k + |pattern|] == b[k..k + |pattern|];
      }
      if !HasAt(b, pattern, k) { FindTextShift(a, b, pattern, k + 1); }
    }
  }

  predicate NoReturns(s: string) { forall i :: 0 <= i < |s| ==> s[i] != CR }

  lemma {:induction false} SkipNoMatch(s: string, pattern: string, from: nat, to: nat)
    requires pattern != "" && from <= to <= |s| && forall i :: from <= i < to ==> !HasAt(s, pattern, i)
    ensures FindText(s, pattern, from) == FindText(s, pattern, to)
    decreases |s| - from
  {
    if from < to { SkipNoMatch(s, pattern, from + 1, to); }
  }

  lemma NotTerminatorAt(s: string, i: nat)
    requires i < |s| && (s[i] != CR || (i + 2 < |s| && s[i + 2] != CR))
    ensures !HasAt(s, TERMINATOR, i)
  {
    if i + 4 <= |s| {
      assert s[i..i + 4][0] == s[i] && s[i..i + 4][2] == s[i + 2];
    }
  }

  /** The search passes over a line that is followed by another. */
  lemma LineSkipped(t: string, rest: string)
    requires NoReturns(t) && rest != "" && rest[0] != CR
    ensures FindText(t + (CRLF + rest), TERMINATOR) == |t| + 2 + FindText(rest, TERMINATOR)
  {
    var a := t + CRLF;
    Associate(t, CRLF, rest);
    NoneInLine(t, a + rest);
    SkipNoMatch(a + rest, TERMINATOR, 0, |a|);
    FindTextShift(a, rest, TERMINATOR, 0);
  }

  lemma NoneInLine(t: string, s: string)
    requires NoReturns(t) && |t| + 2 < |s| && s[..|t| + 2] == t + CRLF && s[|t| + 2] != CR
    ensures forall i :: 0 <= i < |t| + 2 ==> !HasAt(s, TERMINATOR, i)
  {
    forall i | 0 <= i < |t| + 2 ensures !HasAt(s, TERMINATOR, i) {
      assert s[i] == (t + CRLF)[i];
      NotTerminatorAt(s, i);
    }
  }

  /** The search ends behind the last line. */
  lemma LastLineEnds(t: string)
    requires NoReturns(t)
    ensures FindText(t + (CRLF + CRLF), TERMINATOR) == |t|
  {
    FindTextShift(t, CRLF + CRLF, TERMINATOR, 0);
    assert (CRLF + CRLF)[0..4] == TERMINATOR;
    forall i | 0 <= i < |t| ensures !HasAt(t + (CRLF + CRLF), TERMINATOR, i) {
      assert (t + (CRLF + CRLF))[i] == t[i];
      NotTerminatorAt(t + (CRLF + CRLF), i);
    }
    SkipNoMatch(t + (CRLF + CRLF), TERMINATOR, 0, |t|);
  }

  lemma LineTextPlain(f: Field)
    requires FieldOk(f)
    ensures NoReturns(LineText(f)) && LineText(f) != "" && LineText(f)[0] != CR
  {
    forall i | 0 <= i < |LineText(f)| ensures LineText(f)[i] != CR { LineCharacters(f, i); }
  }

  /** In a block of field lines and the blank line, the blank line is the only terminator. */
  lemma {:induction false} OnlyEndTerminates(fs: seq<Field>)
    requires FieldsOk(fs) && fs != []
    ensures FindText(Lines(fs) + CRLF, TERMINATOR) == |Lines(fs)| - 2
    ensures (Lines(fs) + CRLF)[0] != CR
    decreases |fs|
  {
    var t := LineText(fs[0]);
    LineTextPlain(fs[0]);
    if |fs| == 1 {
      Associate(FieldLine(fs[0]), "", "");
      Associate(t, CRLF, CRLF);
      LastLineEnds(t);
    } else {
      var rest := Lines(fs[1..]) + CRLF;
      OnlyEndTerminates(fs[1..]);
      Associate(FieldLine(fs[0]), Lines(fs[1..]), CRLF);
      Associate(t, CRLF, rest);
      LineSkipped(t, rest);
    }
  }
}
