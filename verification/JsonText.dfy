/** JSON string escaping (src/text.cpp, `json_escape`) against the string grammar of section 7 of RFC 8259. */
module JsonText {
  import opened Text
  import opened Bits
  import opened Utf8

  const QUOTE: Byte := 0x22
  const BACKSLASH: Byte := 0x5C
  const LETTER_U: Byte := 0x75
  const DIGIT_ZERO: Byte := 0x30
  const REPLACEMENT: seq<Byte> := [0xEF, 0xBF, 0xBD]

  // ------------------------------------------------------------------- meaning

  /** The four hexadecimal digits of a `\u` escape. */
  function HexQuad(s: seq<Byte>): (r: Option<nat>)
    ensures r.Some? ==> r.value < 0x1_0000
  {
    if |s| < 4 then None
    else
      match (HexValue(s[0] as char), HexValue(s[1] as char), HexValue(s[2] as char), HexValue(s[3] as char))
      case (Some(a), Some(b), Some(c), Some(d)) => Some(a * 4096 + b * 256 + c * 16 + d)
      case _ => None
  }

  /** The text of one escape, and how many bytes write it. */
  function UnescapeOne(s: seq<Byte>): (r: Option<(seq<Byte>, nat)>)
    requires s != [] && s[0] == BACKSLASH
    ensures r.Some? ==> 0 < r.value.1 <= |s|
  {
    if |s| < 2 then None
    else if s[1] in [QUOTE, BACKSLASH, 0x2F] then Some(([s[1]], 2))
    else if s[1] == 0x62 then Some(([0x08], 2))
    else if s[1] == 0x66 then Some(([0x0C], 2))
    else if s[1] == 0x6E then Some(([0x0A], 2))
    else if s[1] == 0x72 then Some(([0x0D], 2))
    else if s[1] == 0x74 then Some(([0x09], 2))
    else if s[1] != LETTER_U then None
    else
      match HexQuad(s[2..])
      case None => None
      case Some(u) =>
        if IsScalar(u) then Some((Encode(u), 6))
        else if u < 0xDC00 && |s| >= 12 && s[6] == BACKSLASH && s[7] == LETTER_U then
          match HexQuad(s[8..])
          case Some(v) =>
            if 0xDC00 <= v < 0xE000 then Some((Encode(0x1_0000 + (u - 0xD800) * 0x400 + (v - 0xDC00)), 12)) else None
          case None => None
        else None
  }

  function Prepend(front: seq<Byte>, rest: Option<seq<Byte>>): Option<seq<Byte>> {
    if rest.Some? then Some(front + rest.value) else None
  }

  /** The bytes that the content of a JSON string stands for; nothing when it is not the content of one. */
  function Unescape(s: seq<Byte>): Option<seq<Byte>>
    decreases |s|
  {
    if s == [] then Some([])
    else if s[0] == BACKSLASH then
      match UnescapeOne(s)
      case None => None
      case Some((text, n)) => Prepend(text, Unescape(s[n..]))
    else if s[0] == QUOTE || s[0] < 0x20 then None
    else Prepend([s[0]], Unescape(s[1..]))
  }

  /** The input with every byte at which no encoded character starts replaced by U+FFFD. */
  function Repaired(s: seq<Byte>): seq<Byte>
    decreases |s|
  {
    if s == [] then []
    else if SequenceLength(s, 0) == 0 then REPLACEMENT + Repaired(s[1..])
    else s[..SequenceLength(s, 0)] + Repaired(s[SequenceLength(s, 0)..])
  }

  // ------------------------------------------------------------------ escaping

  function HexDigit(d: nat): Byte
    requires d < 16
  {
    if d < 10 then 0x30 + d else 0x61 + d - 10
  }

  /** What the next characters are written as, and how many bytes they are. */
  function Unit(s: seq<Byte>): (r: (seq<Byte>, nat))
    requires s != []
    ensures 0 < r.1 <= |s|
  {
    if s[0] == QUOTE || s[0] == BACKSLASH then ([BACKSLASH, s[0]], 1)
    else if s[0] < 0x20 then ([BACKSLASH, LETTER_U, DIGIT_ZERO, DIGIT_ZERO, HexDigit(s[0] / 16), HexDigit(s[0] % 16)], 1)
    else if SequenceLength(s, 0) == 0 then (REPLACEMENT, 1)
    else (s[..SequenceLength(s, 0)], SequenceLength(s, 0))
  }

  function Escaped(s: seq<Byte>): seq<Byte>
    decreases |s|
  {
    if s == [] then [] else Unit(s).0 + Escaped(s[Unit(s).1..])
  }

  lemma LengthAt(s: seq<Byte>, index: nat)
    requires index < |s|
    ensures SequenceLength(s[index..], 0) == SequenceLength(s, index)
  {}

  method AppendUtf8OrReplacement(out: seq<Byte>, input: seq<Byte>, index: nat) returns (out': seq<Byte>, index': nat)
    requires index < |input|
    ensures SequenceLength(input, index) == 0 ==> out' == out + REPLACEMENT && index' == index + 1
    ensures SequenceLength(input, index) > 0 ==>
              && index' == index + SequenceLength(input, index) <= |input|
              && out' == out + input[index..index']
  {
    var length := SequenceLength(input, index);
    if length == 0 {
      return out + REPLACEMENT, index + 1;
    }
    return out + input[index..index + length], index + length;
  }

  /** One step of the escaping loop. */
  method EscapeNext(out: seq<Byte>, input: seq<Byte>, index: nat) returns (out': seq<Byte>, index': nat)
    requires index < |input|
    ensures index < index' <= |input|
    ensures var (unit, n) := Unit(input[index..]); out' == out + unit && index' == index + n
  {
    var byte := input[index];
    LengthAt(input, index);
    if byte == QUOTE || byte == BACKSLASH {
      return out + [BACKSLASH, byte], index + 1;
    } else if byte < 0x20 {
      return out + [BACKSLASH, LETTER_U, DIGIT_ZERO, DIGIT_ZERO, HexDigit(byte / 16), HexDigit(byte % 16)], index + 1;
    }
    out', index' := AppendUtf8OrReplacement(out, input, index);
    assert input[index..][..index' - index] == input[index..index'];
  }

  method JsonEscape(input: seq<Byte>) returns (escaped: seq<Byte>)
    ensures escaped == Escaped(input)
  {
    escaped := [];
    var index := 0;
    assert input[0..] == input;
    while index < |input|
      invariant index <= |input|
      invariant Escaped(input) == escaped + Escaped(input[index..])
      decreases |input| - index
    {
      var left := input[index..];
      Associate(escaped, Unit(left).0, Escaped(left[Unit(left).1..]));
      assert left[Unit(left).1..] == input[index + Unit(left).1..];
      escaped, index := EscapeNext(escaped, input, index);
    }
  }

  // ------------------------------------------------------------------ round trip

  predicate IsPlain(b: Byte) { b >= 0x20 && b != QUOTE && b != BACKSLASH }

  lemma {:induction false} UnescapePlain(front: seq<Byte>, rest: seq<Byte>)
    requires forall i :: 0 <= i < |front| ==> IsPlain(front[i])
    ensures Unescape(front + rest) == Prepend(front, Unescape(rest))
  {
    if front == [] {
      assert front + rest == rest;
      assert Unescape(rest).Some? ==> [] + Unescape(rest).value == Unescape(rest).value;
    } else {
      UnescapePlain(front[1..], rest);
      assert (front + rest)[1..] == front[1..] + rest;
      if Unescape(rest).Some? {
        assert front == [front[0]] + front[1..];
        Associate([front[0]], front[1..], Unescape(rest).value);
      }
    }
  }

  lemma HexDigitValue(d: nat)
    requires d < 16
    ensures HexValue(HexDigit(d) as char) == Some(d)
  {}

  lemma UnescapeControl(b: Byte, rest: seq<Byte>)
    requires b < 0x20
    ensures var unit := [BACKSLASH, LETTER_U, DIGIT_ZERO, DIGIT_ZERO, HexDigit(b / 16), HexDigit(b % 16)];
            Unescape(unit + rest) == Prepend([b], Unescape(rest))
  {
    var unit := [BACKSLASH, LETTER_U, DIGIT_ZERO, DIGIT_ZERO, HexDigit(b / 16), HexDigit(b % 16)];
    var s := unit + rest;
    HexDigitValue(b / 16);
    HexDigitValue(b % 16);
    var quad := s[2..];
    assert quad[0] == unit[2] && quad[1] == unit[3] && quad[2] == unit[4] && quad[3] == unit[5];
    assert HexQuad(quad) == Some(b as nat);
    assert s[0] == unit[0] && s[1] == unit[1];
    assert s[6..] == rest;
  }

  lemma UnescapePair(b: Byte, rest: seq<Byte>)
    requires b == QUOTE || b == BACKSLASH
    ensures Unescape([BACKSLASH, b] + rest) == Prepend([b], Unescape(rest))
  {
    var s := [BACKSLASH, b] + rest;
    assert s[0] == BACKSLASH && s[1] == b && s[2..] == rest;
  }

  /** The bytes of a longer sequence are plain. */
  lemma LongSequenceIsPlain(s: seq<Byte>)
    requires s != [] && IsPlain(s[0])
    ensures forall i :: 0 <= i < SequenceLength(s, 0) ==> IsPlain(s[i])
  {}

  /** A reader of the escaped text gets the input back, with ill-formed bytes replaced. */
  lemma {:induction false} UnescapeEscaped(s: seq<Byte>)
    ensures Unescape(Escaped(s)) == Some(Repaired(s))
    decreases |s|
  {
    if s != [] {
      var (unit, n) := Unit(s);
      var rest := Escaped(s[n..]);
      UnescapeEscaped(s[n..]);
      if s[0] == QUOTE || s[0] == BACKSLASH {
        UnescapePair(s[0], rest);
        assert s[..1] == [s[0]];
      } else if s[0] < 0x20 {
        UnescapeControl(s[0], rest);
        assert s[..1] == [s[0]];
      } else if SequenceLength(s, 0) == 0 {
        UnescapePlain(REPLACEMENT, rest);
      } else {
        LongSequenceIsPlain(s);
        UnescapePlain(s[..n], rest);
      }
    }
  }

  // ------------------------------------------------------------------ well-formedness

  lemma {:induction false} EncodeAllConcat(us: seq<int>, vs: seq<int>)
    requires forall i :: 0 <= i < |us| ==> IsScalar(us[i])
    requires forall i :: 0 <= i < |vs| ==> IsScalar(vs[i])
    ensures EncodeAll(us + vs) == EncodeAll(us) + EncodeAll(vs)
  {
    if us == [] {
      assert us + vs == vs;
    } else {
      EncodeAllConcat(us[1..], vs);
      assert (us + vs)[1..] == us[1..] + vs;
      Associate(Encode(us[0]), EncodeAll(us[1..]), EncodeAll(vs));
    }
  }

  lemma WellFormedConcat(a: seq<Byte>, b: seq<Byte>)
    requires WellFormed(a) && WellFormed(b)
    ensures WellFormed(a + b)
  {
    var us :| Encodes(a, us);
    var vs :| Encodes(b, vs);
    EncodeAllConcat(us, vs);
    assert Encodes(a + b, us + vs);
  }

  lemma WellFormedScalar(u: int)
    requires IsScalar(u)
    ensures WellFormed(Encode(u))
  {
    assert [u][1..] == [];
    assert Encodes(Encode(u), [u]);
  }

  lemma {:induction false} WellFormedAscii(s: seq<Byte>)
    requires forall i :: 0 <= i < |s| ==> s[i] < 0x80
    ensures WellFormed(s)
  {
    if s == [] {
      assert Encodes([], []);
    } else {
      WellFormedAscii(s[1..]);
      WellFormedScalar(s[0]);
      WellFormedConcat([s[0]], s[1..]);
      assert s == [s[0]] + s[1..];
    }
  }

  lemma ReplacementIsWellFormed()
    ensures WellFormed(REPLACEMENT)
  {
    WellFormedScalar(0xFFFD);
    assert Encode(0xFFFD) == REPLACEMENT;
  }

  lemma AcceptedIsWellFormed(s: seq<Byte>)
    requires s != [] && SequenceLength(s, 0) > 0
    ensures WellFormed(s[..SequenceLength(s, 0)])
  {
    AcceptedEncodes(s, 0);
    WellFormedScalar(ScalarAt(s, 0));
  }

  /** Whatever the input, the escaped text is well-formed UTF-8. */
  lemma {:induction false} EscapedIsWellFormed(s: seq<Byte>)
    ensures WellFormed(Escaped(s))
    decreases |s|
  {
    if s == [] {
      WellFormedAscii([]);
    } else {
      var (unit, n) := Unit(s);
      EscapedIsWellFormed(s[n..]);
      if s[0] == QUOTE || s[0] == BACKSLASH || s[0] < 0x20 {
        WellFormedAscii(unit);
      } else if SequenceLength(s, 0) == 0 {
        ReplacementIsWellFormed();
      } else {
        AcceptedIsWellFormed(s);
      }
      WellFormedConcat(unit, Escaped(s[n..]));
    }
  }

  lemma {:induction false} RepairedIsWellFormed(s: seq<Byte>)
    ensures WellFormed(Repaired(s))
    decreases |s|
  {
    if s == [] {
      WellFormedAscii([]);
    } else if SequenceLength(s, 0) == 0 {
      RepairedIsWellFormed(s[1..]);
      ReplacementIsWellFormed();
      WellFormedConcat(REPLACEMENT, Repaired(s[1..]));
    } else {
      var n := SequenceLength(s, 0);
      RepairedIsWellFormed(s[n..]);
      AcceptedIsWellFormed(s);
      WellFormedConcat(s[..n], Repaired(s[n..]));
    }
  }

  lemma {:induction false} EncodedIsNotRepaired(us: seq<int>)
    requires forall i :: 0 <= i < |us| ==> IsScalar(us[i])
    ensures Repaired(EncodeAll(us)) == EncodeAll(us)
  {
    if us != [] {
      var s, e := EncodeAll(us), Encode(us[0]);
      assert s[..|e|] == e && s[|e|..] == EncodeAll(us[1..]);
      assert HasBytesAt(s, e, 0);
      EncodedAccepted(s, 0, us[0]);
      EncodedIsNotRepaired(us[1..]);
    }
  }

  /** Repair changes exactly the ill-formed texts. */
  lemma RepairIsExact(s: seq<Byte>)
    ensures Repaired(s) == s <==> WellFormed(s)
  {
    RepairedIsWellFormed(s);
    if us :| Encodes(s, us) {
      EncodedIsNotRepaired(us);
    }
  }

  /** The round trip: reading back gives the input itself exactly when the input was well formed. */
  lemma JsonRoundTrip(s: seq<Byte>)
    ensures Unescape(Escaped(s)) == Some(s) <==> WellFormed(s)
  {
    UnescapeEscaped(s);
    RepairIsExact(s);
  }
}
