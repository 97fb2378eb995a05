/**
 Server-sent event frames (src/sse.cpp) and the event-stream decoder of section
 9.2.6 of the WHATWG HTML Living Standard. The printers are loops, as in the
 source; the decoder is an independent reference, and the round trip connects
 the two for every sequence of frames.
 */
module SseFrames {
  import opened Text

  const EVENT_FIELD := "event: "
  const DATA_FIELD := "data: "
  const RETRY_FIELD := "retry: "
  const HEARTBEAT := ": heartbeat\n\n"

  predicate IsBreak(c: char) { c == CR || c == LF }

  predicate NoBreaks(s: string) { forall i :: 0 <= i < |s| ==> !IsBreak(s[i]) }

  /** `find_first_of("\r\n", from)`. */
  function BreakAt(s: string, from: nat := 0): (r: nat)
    requires from <= |s|
    ensures from <= r <= |s|
    ensures NoBreaks(s[from..r])
    ensures r < |s| ==> IsBreak(s[r])
    decreases |s| - from
  {
    if from == |s| || IsBreak(s[from]) then from
    else
      var r := BreakAt(s, from + 1);
      assert s[from..r] == [s[from]] + s[from + 1..r];
      r
  }

  /** Start of the line after the break at `at`; a CR takes a following LF with it. */
  function NextLine(s: string, at: nat): (r: nat)
    requires at < |s| && IsBreak(s[at])
    ensures at < r <= |s|
  {
    if s[at] == CR && at + 1 < |s| && s[at + 1] == LF then at + 2 else at + 1
  }

  // ---------------------------------------------------------------- encoding

  /** The payload cut at every CR, LF and CRLF. */
  function Lines(s: string, from: nat := 0): (r: seq<string>)
    requires from <= |s|
    ensures |r| > 0
    ensures forall i :: 0 <= i < |r| ==> NoBreaks(r[i])
    decreases |s| - from
  {
    var at := BreakAt(s, from);
    if at == |s| then [s[from..]] else [s[from..at]] + Lines(s, NextLine(s, at))
  }

  function DataField(line: string): string { DATA_FIELD + line + [LF] }

  function DataFields(lines: seq<string>): string {
    if lines == [] then "" else DataField(lines[0]) + DataFields(lines[1..])
  }

  /** A name with its line breaks turned into spaces. */
  function OneLine(event: string): (r: string)
    ensures |r| == |event|
    ensures NoBreaks(r)
    ensures forall i :: 0 <= i < |r| ==> r[i] == if IsBreak(event[i]) then ' ' else event[i]
  {
    seq(|event|, i requires 0 <= i < |event| => if IsBreak(event[i]) then ' ' else event[i])
  }

  function NameField(event: string): string {
    if event == "" then "" else EVENT_FIELD + OneLine(event) + [LF]
  }

  function EventFrame(event: string, data: string): string {
    NameField(event) + DataFields(Lines(data)) + [LF]
  }

  datatype Frame =
    | Event(name: string, data: string)
    | Heartbeat
    | Retry(milliseconds: nat)

  function FrameText(f: Frame): string {
    match f
    case Event(name, data) => EventFrame(name, data)
    case Heartbeat => HEARTBEAT
    case Retry(ms) => RETRY_FIELD + Numeral(ms) + "\n\n"
  }

  /** One line off the front of the remaining payload. */
  lemma DataFieldsStep(s: string, from: nat)
    requires from <= |s|
    ensures var at := BreakAt(s, from);
            DataFields(Lines(s, from)) ==
            DataField(s[from..at]) + (if at == |s| then "" else DataFields(Lines(s, NextLine(s, at))))
  {
    var at := BreakAt(s, from);
    if at == |s| {
      assert s[from..at] == s[from..];
    } else {
      assert Lines(s, from)[1..] == Lines(s, NextLine(s, at));
    }
  }

  method AppendDataLines(frame: string, payload: string) returns (r: string)
    ensures r == frame + DataFields(Lines(payload))
  {
    r := frame;
    var start := 0;
    while true
      invariant 0 <= start <= |payload|
      invariant r + DataFields(Lines(payload, start)) == frame + DataFields(Lines(payload))
      decreases |payload| - start
    {
      DataFieldsStep(payload, start);
      var at := BreakAt(payload, start);
      var field := DataField(payload[start..at]);
      Associate(r, field, if at == |payload| then "" else DataFields(Lines(payload, NextLine(payload, at))));
      r := r + field;
      if at == |payload| {
        return;
      }
      start := at + 1;
      if payload[at] == CR && start < |payload| && payload[start] == LF {
        start := start + 1;
      }
    }
  }

  method AppendEventName(frame: string, event: string) returns (r: string)
    ensures r == frame + EVENT_FIELD + OneLine(event) + [LF]
  {
    r := frame + EVENT_FIELD;
    for i := 0 to |event|
      invariant r == frame + EVENT_FIELD + OneLine(event)[..i]
    {
      r := r + [if event[i] == CR || event[i] == LF then ' ' else event[i]];
    }
    r := r + [LF];
    assert OneLine(event)[..|event|] == OneLine(event);
  }

  method BuildEventFrame(event: string, data: string) returns (frame: string)
    ensures frame == EventFrame(event, data)
  {
    frame := "";
    if event != "" {
      frame := AppendEventName(frame, event);
    }
    frame := AppendDataLines(frame, data);
    frame := frame + [LF];
  }

  /** Adds to a running size unless that would pass the limit. */
  method AddFrameBytes(size: nat, bytes: nat, limit: nat) returns (ok: bool, r: nat)
    requires size <= limit
    ensures ok <==> size + bytes <= limit
    ensures r == if ok then size + bytes else size
  {
    if bytes > limit - size {
      return false, size;
    }
    return true, size + bytes;
  }

  /** Adds the bytes of one `prefix value LF` field. */
  method AddField(size: nat, prefix: nat, value: nat, limit: nat) returns (ok: bool, r: nat)
    requires size <= limit
    ensures ok <==> size + prefix + value + 1 <= limit
    ensures r <= limit && (ok ==> r == size + prefix + value + 1)
  {
    ok, r := AddFrameBytes(size, prefix, limit);
    if ok { ok, r := AddFrameBytes(r, value, limit); }
    if ok { ok, r := AddFrameBytes(r, 1, limit); }
  }

  /** The bytes of the data fields of the payload from `from` on. */
  function DataSize(s: string, from: nat): nat
    requires from <= |s|
    decreases |s| - from
  {
    var at := BreakAt(s, from);
    |DATA_FIELD| + (at - from) + 1 + if at == |s| then 0 else DataSize(s, NextLine(s, at))
  }

  lemma {:induction false} DataSizeIsExact(s: string, from: nat)
    requires from <= |s|
    ensures |DataFields(Lines(s, from))| == DataSize(s, from)
    decreases |s| - from
  {
    DataFieldsStep(s, from);
    var at := BreakAt(s, from);
    if at < |s| { DataSizeIsExact(s, NextLine(s, at)); }
  }

  function FrameBytes(event: string, data: string): nat {
    (if event == "" then 0 else |EVENT_FIELD| + |event| + 1) + DataSize(data, 0) + 1
  }

  lemma FrameBytesIsExact(event: string, data: string)
    ensures FrameBytes(event, data) == |EventFrame(event, data)|
  {
    DataSizeIsExact(data, 0);
  }

  /** The size predicted by a loop of its own is the size of the frame that is built. */
  method EventFrameSize(event: string, data: string, limit: nat) returns (r: Option<nat>)
    ensures r == if |EventFrame(event, data)| <= limit then Some(|EventFrame(event, data)|) else None
  {
    FrameBytesIsExact(event, data);
    r := AddUpFrame(event, data, limit);
  }

  method AddUpFrame(event: string, data: string, limit: nat) returns (r: Option<nat>)
    ensures r == if FrameBytes(event, data) <= limit then Some(FrameBytes(event, data)) else None
  {
    var size: nat, ok := 0, true;
    if event != "" {
      ok, size := AddField(size, |EVENT_FIELD|, |event|, limit);
      if !ok { return None; }
    }
    var start := 0;
    while true
      invariant 0 <= start <= |data|
      invariant size <= limit
      invariant size + DataSize(data, start) + 1 == FrameBytes(event, data)
      decreases |data| - start
    {
      var at := BreakAt(data, start);
      ok, size := AddField(size, |DATA_FIELD|, at - start, limit);
      if !ok { return None; }
      if at == |data| { break; }
      start := at + 1;
      if data[at] == CR && start < |data| && data[start] == LF {
        start := start + 1;
      }
    }
    ok, size := AddFrameBytes(size, 1, limit);
    return if ok then Some(size) else None;
  }

  // ---------------------------------------------------------------- decoding

  datatype Message = Message(name: string, data: string, lastId: string)

  datatype Decoder = Decoder(data: string, event: string, lastId: string, retry: nat)

  const START := Decoder("", "", "", 0)

  /** One field of the stream, after the line was split at its first colon. */
  function Field(d: Decoder, name: string, value: string): Decoder {
    if name == "event" then d.(event := value)
    else if name == "data" then d.(data := d.data + value + [LF])
    else if name == "id" then (if '\0' in value then d else d.(lastId := value))
    else if name == "retry" && value != "" && (forall i :: 0 <= i < |value| ==> IsDigit(value[i])) then
      d.(retry := NumeralValue(value))
    else d
  }

  function Line(d: Decoder, line: string): Decoder
    requires line != ""
  {
    var colon := Find(line, ':');
    if colon == 0 then d
    else if colon == |line| then Field(d, line, "")
    else
      var value := line[colon + 1..];
      Field(d, line[..colon], if value != "" && value[0] == ' ' then value[1..] else value)
  }

  /** A blank line: the event to dispatch, if any. */
  function Dispatch(d: Decoder): seq<Message> {
    if d.data == "" then []
    else [Message(if d.event == "" then "message" else d.event, d.data[..|d.data| - 1], d.lastId)]
  }

  /** Events of a stream; an unfinished line at the end is discarded. */
  function Feed(d: Decoder, stream: string): seq<Message>
    decreases |stream|
  {
    var at := BreakAt(stream);
    if at == |stream| then []
    else
      var rest := stream[NextLine(stream, at)..];
      if at == 0 then Dispatch(d) + Feed(d.(data := "", event := ""), rest)
      else Feed(Line(d, stream[..at]), rest)
  }

  function Decode(stream: string): seq<Message> {
    Feed(START, if stream != "" && stream[0] == '\U{FEFF}' then stream[1..] else stream)
  }

  // -------------------------------------------------------------- round trip

  /** CRLF, CR and LF all read as LF. */
  function Normalized(s: string): string {
    if s == "" then ""
    else if s[0] == CR then [LF] + Normalized(if |s| > 1 && s[1] == LF then s[2..] else s[1..])
    else [s[0]] + Normalized(s[1..])
  }

  function Joined(lines: seq<string>): string
    requires lines != []
  {
    if |lines| == 1 then lines[0] else lines[0] + [LF] + Joined(lines[1..])
  }

  lemma {:induction false} NormalizedPlain(s: string, t: string)
    requires NoBreaks(s)
    ensures Normalized(s + t) == s + Normalized(t)
  {
    if s == "" {
      assert s + t == t;
    } else {
      NormalizedPlain(s[1..], t);
      assert (s + t)[1..] == s[1..] + t;
    }
  }

  lemma NormalizedBreak(s: string, at: nat)
    requires at < |s| && IsBreak(s[at])
    ensures Normalized(s[at..]) == [LF] + Normalized(s[NextLine(s, at)..])
  {
    assert s[at..][1..] == s[at + 1..];
    if NextLine(s, at) == at + 2 { assert s[at..][2..] == s[at + 2..]; }
  }

  /** Splitting into lines and joining with LF is newline normalisation. */
  lemma {:induction false} LinesNormalize(s: string, from: nat)
    requires from <= |s|
    ensures Joined(Lines(s, from)) == Normalized(s[from..])
    decreases |s| - from
  {
    var at := BreakAt(s, from);
    assert s[from..] == s[from..at] + s[at..];
    NormalizedPlain(s[from..at], s[at..]);
    if at == |s| {
      assert s[at..] == "";
    } else {
      LinesNormalize(s, NextLine(s, at));
      NormalizedBreak(s, at);
      assert Lines(s, from)[1..] == Lines(s, NextLine(s, at));
      Associate(s[from..at], [LF], Normalized(s[NextLine(s, at)..]));
    }
  }

  lemma {:induction false} BreakAtLine(line: string, rest: string, from: nat)
    requires NoBreaks(line) && from <= |line|
    ensures BreakAt(line + [LF] + rest, from) == |line|
    decreases |line| - from
  {
    var s := line + [LF] + rest;
    if from < |line| {
      assert s[from] == line[from];
      BreakAtLine(line, rest, from + 1);
    } else {
      assert s[from] == LF;
    }
  }

  /** Feeding one LF-terminated line is one step of the decoder. */
  lemma FeedLine(d: Decoder, line: string, rest: string)
    requires NoBreaks(line)
    ensures Feed(d, line + [LF] + rest) ==
            if line == "" then Dispatch(d) + Feed(d.(data := "", event := ""), rest)
            else Feed(Line(d, line), rest)
  {
    var s := line + [LF] + rest;
    BreakAtLine(line, rest, 0);
    assert s[|line|] == LF;
    assert s[..|line|] == line;
    assert s[|line| + 1..] == rest;
  }

  lemma {:induction false} FindPrefix(name: string, value: string, from: nat)
    requires ':' !in name && from <= |name|
    ensures Find(name + ":" + value, ':', from) == |name|
    decreases |name| - from
  {
    var s := name + ":" + value;
    if from < |name| {
      assert s[from] == name[from];
      FindPrefix(name, value, from + 1);
    } else {
      assert s[from] == ':';
    }
  }

  lemma LineField(d: Decoder, name: string, value: string)
    requires name != "" && ':' !in name
    ensures Line(d, name + ": " + value) == Field(d, name, value)
  {
    var line := name + ": " + value;
    assert line == name + ":" + (" " + value);
    FindPrefix(name, " " + value, 0);
    assert line[|name| + 1..] == " " + value;
    assert (" " + value)[1..] == value;
    assert line[..|name|] == name;
  }

  lemma NoBreaksConcat(a: string, b: string)
    requires NoBreaks(a) && NoBreaks(b)
    ensures NoBreaks(a + b)
  {}

  lemma FeedNamed(d: Decoder, name: string, value: string, rest: string)
    requires name != "" && ':' !in name && NoBreaks(name) && NoBreaks(value)
    ensures Feed(d, name + ": " + value + [LF] + rest) == Feed(Field(d, name, value), rest)
  {
    var line := name + ": " + value;
    NoBreaksConcat(name, ": ");
    NoBreaksConcat(name + ": ", value);
    FeedLine(d, line, rest);
    LineField(d, name, value);
  }

  lemma FeedDataLine(d: Decoder, line: string, rest: string)
    requires NoBreaks(line)
    ensures Feed(d, DataField(line) + rest) == Feed(d.(data := d.data + line + [LF]), rest)
  {
    assert DataField(line) + rest == "data" + ": " + line + [LF] + rest;
    FeedNamed(d, "data", line, rest);
  }

  lemma {:induction false} FeedData(d: Decoder, lines: seq<string>, rest: string)
    requires lines != [] && forall i :: 0 <= i < |lines| ==> NoBreaks(lines[i])
    ensures Feed(d, DataFields(lines) + rest) == Feed(d.(data := d.data + Joined(lines) + [LF]), rest)
    decreases |lines|
  {
    var tail := DataFields(lines[1..]) + rest;
    Associate(DataField(lines[0]), DataFields(lines[1..]), rest);
    FeedDataLine(d, lines[0], tail);
    if |lines| == 1 {
      assert tail == rest;
    } else {
      FeedData(d.(data := d.data + lines[0] + [LF]), lines[1..], rest);
      JoinedStep(d.data, lines);
    }
  }

  lemma JoinedStep(data: string, lines: seq<string>)
    requires |lines| > 1
    ensures (data + lines[0] + [LF]) + Joined(lines[1..]) + [LF] == data + Joined(lines) + [LF]
  {}

  predicate BetweenEvents(d: Decoder) { d.data == "" && d.event == "" && d.lastId == "" }

  lemma FeedBlank(d: Decoder, rest: string)
    ensures Feed(d, [LF] + rest) == Dispatch(d) + Feed(d.(data := "", event := ""), rest)
  {
    assert "" + [LF] + rest == [LF] + rest;
    FeedLine(d, "", rest);
  }

  lemma FeedName(d: Decoder, name: string, rest: string)
    requires BetweenEvents(d)
    ensures Feed(d, NameField(name) + rest) == Feed(d.(event := OneLine(name)), rest)
  {
    if name == "" {
      assert NameField(name) + rest == rest;
    } else {
      assert NameField(name) + rest == "event" + ": " + OneLine(name) + [LF] + rest;
      FeedNamed(d, "event", OneLine(name), rest);
    }
  }

  lemma FeedEvent(d: Decoder, name: string, data: string, rest: string)
    requires BetweenEvents(d)
    ensures Feed(d, EventFrame(name, data) + rest) == Expected(Event(name, data)) + Feed(d, rest)
  {
    var body := DataFields(Lines(data)) + ([LF] + rest);
    assert EventFrame(name, data) + rest == NameField(name) + body;
    FeedName(d, name, body);
    var d1 := d.(event := OneLine(name));
    FeedData(d1, Lines(data), [LF] + rest);
    LinesNormalize(data, 0);
    assert data[0..] == data;
    var d2 := d1.(data := d1.data + Joined(Lines(data)) + [LF]);
    FeedBlank(d2, rest);
    assert d2.(data := "", event := "") == d;
    assert d2.data[..|d2.data| - 1] == Normalized(data);
  }

  /** What a client must see for a frame: nothing for heartbeats and retry hints. */
  function Expected(f: Frame): seq<Message> {
    match f
    case Event(name, data) => [Message(if name == "" then "message" else OneLine(name), Normalized(data), "")]
    case Heartbeat => []
    case Retry(_) => []
  }

  lemma FeedHeartbeat(d: Decoder, rest: string)
    requires BetweenEvents(d)
    ensures Feed(d, HEARTBEAT + rest) == Feed(d, rest)
  {
    assert HEARTBEAT + rest == ": heartbeat" + [LF] + ([LF] + rest);
    FeedLine(d, ": heartbeat", [LF] + rest);
    FeedBlank(d, rest);
  }

  lemma RetryField(d: Decoder, ms: nat)
    ensures Field(d, "retry", Numeral(ms)) == d.(retry := ms)
    ensures NoBreaks(Numeral(ms))
  {
    NumeralRoundTrip(ms);
    var n := Numeral(ms);
    forall i | 0 <= i < |n| ensures !IsBreak(n[i]) { assert IsDigit(n[i]); }
  }

  lemma FeedRetry(d: Decoder, ms: nat, rest: string)
    requires BetweenEvents(d)
    ensures Feed(d, FrameText(Retry(ms)) + rest) == Feed(d.(retry := ms), rest)
  {
    var n := Numeral(ms);
    RetryField(d, ms);
    assert FrameText(Retry(ms)) + rest == "retry" + ": " + n + [LF] + ([LF] + rest);
    FeedNamed(d, "retry", n, [LF] + rest);
    FeedBlank(d.(retry := ms), rest);
  }

  function StreamText(frames: seq<Frame>): string {
    if frames == [] then "" else FrameText(frames[0]) + StreamText(frames[1..])
  }

  function ExpectedAll(frames: seq<Frame>): seq<Message> {
    if frames == [] then [] else Expected(frames[0]) + ExpectedAll(frames[1..])
  }

  lemma {:induction false} FeedFrames(d: Decoder, frames: seq<Frame>)
    requires BetweenEvents(d)
    ensures Feed(d, StreamText(frames)) == ExpectedAll(frames)
    decreases |frames|
  {
    if frames != [] {
      var rest := StreamText(frames[1..]);
      match frames[0]
      case Event(name, data) =>
        FeedEvent(d, name, data, rest);
        FeedFrames(d, frames[1..]);
      case Heartbeat =>
        FeedHeartbeat(d, rest);
        FeedFrames(d, frames[1..]);
      case Retry(ms) =>
        FeedRetry(d, ms, rest);
        FeedFrames(d.(retry := ms), frames[1..]);
    }
  }

  /** Every stream of frames decodes to one message per event frame, in order. */
  lemma RoundTrip(frames: seq<Frame>)
    ensures Decode(StreamText(frames)) == ExpectedAll(frames)
  {
    FeedFrames(START, frames);
    if frames != [] {
      assert StreamText(frames)[0] == FrameText(frames[0])[0];
      FirstCharacter(frames[0]);
    }
  }

  lemma FirstCharacter(f: Frame)
    ensures FrameText(f) != "" && FrameText(f)[0] in {'e', 'd', ':', 'r'}
  {
    if f.Event? && f.name == "" {
      assert FrameText(f) == DataFields(Lines(f.data)) + [LF];
      assert DataFields(Lines(f.data))[0] == 'd';
    }
  }
}
