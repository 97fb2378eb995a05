/**
 UTF-8 validation and JSON escaping (src/text.cpp), against the encoding of
 section 4 of RFC 3629 and the string grammar of section 7 of RFC 8259.
 */
module Utf8 {
  import opened Bits

  // -------------------------------------------------------------- the encoding

  predicate IsScalar(u: int) { 0 <= u < 0xD800 || 0xE000 <= u < 0x11_0000 }

  function Trailing(n: nat): Byte { 0x80 + n % 64 }

  /** The bytes of one Unicode scalar value. */
  function Encode(u: int): (r: seq<Byte>)
    requires IsScalar(u)
    ensures 1 <= |r| <= 4
  {
    if u < 0x80 then [u]
    else if u < 0x800 then [0xC0 + u / 64, Trailing(u)]
    else if u < 0x1_0000 then [0xE0 + u / 4096, Trailing(u / 64), Trailing(u)]
    else [0xF0 + u / 0x4_0000, Trailing(u / 4096), Trailing(u / 64), Trailing(u)]
  }

  function EncodeAll(us: seq<int>): seq<Byte>
    requires forall i :: 0 <= i < |us| ==> IsScalar(us[i])
  {
    if us == [] then [] else Encode(us[0]) + EncodeAll(us[1..])
  }

  ghost predicate Encodes(s: seq<Byte>, us: seq<int>) {
    (forall i :: 0 <= i < |us| ==> IsScalar(us[i])) && s == EncodeAll(us)
  }

  /** Some text of scalar values encodes to these bytes. */
  ghost predicate WellFormed(s: seq<Byte>) { exists us :: Encodes(s, us) }

  // -------------------------------------------------------------- the validator

  predicate IsContinuation(b: Byte) { 0x80 <= b <= 0xBF }

  /** `valid_utf8_sequence_length`: the length of the sequence at `index`, or 0. */
  function SequenceLength(s: seq<Byte>, index: nat): nat
    requires index < |s|
  {
    var first, remaining := s[index], |s| - index;
    if first < 0x80 then 1
    else if 0xC2 <= first <= 0xDF then (if remaining >= 2 && IsContinuation(s[index + 1]) then 2 else 0)
    else if 0xE0 <= first <= 0xEF then
      if remaining < 3 || !IsContinuation(s[index + 2]) then 0
      else if !IsContinuation(s[index + 1]) then 0
      else if first == 0xE0 && s[index + 1] < 0xA0 then 0
      else if first == 0xED && s[index + 1] > 0x9F then 0
      else 3
    else if 0xF0 <= first <= 0xF4 then
      if remaining < 4 || !IsContinuation(s[index + 2]) || !IsContinuation(s[index + 3]) then 0
      else if !IsContinuation(s[index + 1]) then 0
      else if first == 0xF0 && s[index + 1] < 0x90 then 0
      else if first == 0xF4 && s[index + 1] > 0x8F then 0
      else 4
    else 0
  }

  predicate HasBytesAt(s: seq<Byte>, piece: seq<Byte>, at: nat) {
    at + |piece| <= |s| && s[at..at + |piece|] == piece
  }

  function ByteValue(s: seq<Byte>, at: nat): int
    requires at < |s|
  {
    s[at]
  }

  /** The scalar value that an accepted sequence encodes. */
  function ScalarAt(s: seq<Byte>, index: nat): (u: int)
    requires index < |s| && SequenceLength(s, index) > 0
  {
    var (k, a) := (SequenceLength(s, index), ByteValue(s, index));
    if k == 1 then a
    else
      var b := ByteValue(s, index + 1) - 0x80;
      if k == 2 then (a - 0xC0) * 64 + b
      else
        var c := ByteValue(s, index + 2) - 0x80;
        if k == 3 then (a - 0xE0) * 4096 + b * 64 + c
        else (a - 0xF0) * 0x4_0000 + b * 4096 + c * 64 + (ByteValue(s, index + 3) - 0x80)
  }

  lemma Digits2(a: nat, b: nat)
    requires b < 64
    ensures (a * 64 + b) / 64 == a && (a * 64 + b) % 64 == b
  {}

  lemma Digits3(a: nat, b: nat, c: nat)
    requires b < 64 && c < 64
    ensures var u := a * 4096 + b * 64 + c; u / 4096 == a && u / 64 % 64 == b && u % 64 == c
  {
    var u := a * 4096 + b * 64 + c;
    Digits2(a * 64 + b, c);
    Digits2(a, b);
    assert u / 4096 == u / 64 / 64;
  }

  lemma Digits4(a: nat, b: nat, c: nat, d: nat)
    requires b < 64 && c < 64 && d < 64
    ensures var u := a * 0x4_0000 + b * 4096 + c * 64 + d;
            u / 0x4_0000 == a && u / 4096 % 64 == b && u / 64 % 64 == c && u % 64 == d
  {
    var u := a * 0x4_0000 + b * 4096 + c * 64 + d;
    Digits2(a * 4096 + b * 64 + c, d);
    Digits3(a, b, c);
    assert u / 64 == a * 4096 + b * 64 + c;
    assert u / 4096 == u / 64 / 64 && u / 0x4_0000 == u / 64 / 4096;
  }

  lemma AcceptedThree(s: seq<Byte>, index: nat)
    requires index < |s| && SequenceLength(s, index) == 3
    ensures var u := ScalarAt(s, index);
            IsScalar(u) && Encode(u) == [s[index], s[index + 1], s[index + 2]]
  {
    Digits3(s[index] - 0xE0, s[index + 1] - 0x80, s[index + 2] - 0x80);
  }

  lemma AcceptedFour(s: seq<Byte>, index: nat)
    requires index < |s| && SequenceLength(s, index) == 4
    ensures var u := ScalarAt(s, index);
            IsScalar(u) && Encode(u) == [s[index], s[index + 1], s[index + 2], s[index + 3]]
  {
    Digits4(s[index] - 0xF0, s[index + 1] - 0x80, s[index + 2] - 0x80, s[index + 3] - 0x80);
  }

  /** What the validator accepts encodes one scalar value. */
  lemma AcceptedEncodes(s: seq<Byte>, index: nat)
    requires index < |s| && SequenceLength(s, index) > 0
    ensures IsScalar(ScalarAt(s, index)) && HasBytesAt(s, Encode(ScalarAt(s, index)), index)
    ensures |Encode(ScalarAt(s, index))| == SequenceLength(s, index)
  {
    var k := SequenceLength(s, index);
    if k == 2 {
      Digits2(s[index] - 0xC0, s[index + 1] - 0x80);
    } else if k == 3 {
      AcceptedThree(s, index);
    } else if k == 4 {
      AcceptedFour(s, index);
    }
  }

  lemma ByteAt(s: seq<Byte>, piece: seq<Byte>, at: nat, k: nat)
    requires HasBytesAt(s, piece, at) && k < |piece|
    ensures s[at + k] == piece[k]
  {
    assert s[at..at + |piece|][k] == s[at + k];
  }

  /** Every encoded scalar value is accepted, with its length. */
  lemma EncodedAccepted(s: seq<Byte>, index: nat, u: int)
    requires IsScalar(u) && index < |s| && HasBytesAt(s, Encode(u), index)
    ensures SequenceLength(s, index) == |Encode(u)|
  {
    var e := Encode(u);
    forall k | 0 <= k < |e| ensures s[index + k] == e[k] { ByteAt(s, e, index, k); }
    if |e| == 2 {
      assert 2 <= u / 64 < 32;
    } else if |e| == 3 {
      ThreeByteRanges(u);
    } else if |e| == 4 {
      FourByteRanges(u);
    }
  }

  lemma ThreeByteRanges(u: int)
    requires IsScalar(u) && 0x800 <= u < 0x1_0000
    ensures u / 4096 < 16
    ensures u / 4096 == 0 ==> u / 64 % 64 >= 0x20
    ensures u / 4096 == 0xD ==> u / 64 % 64 < 0x20
  {}

  lemma FourByteRanges(u: int)
    requires 0x1_0000 <= u < 0x11_0000
    ensures u / 0x4_0000 <= 4
    ensures u / 0x4_0000 == 0 ==> u / 4096 % 64 >= 0x10
    ensures u / 0x4_0000 == 4 ==> u / 4096 % 64 < 0x10
  {}

  /** The validator accepts length `k` exactly when those `k` bytes encode one scalar value. */
  lemma ValidatorIsExact(s: seq<Byte>, index: nat, k: nat)
    requires index < |s| && k > 0
    ensures SequenceLength(s, index) == k <==> exists u :: IsScalar(u) && |Encode(u)| == k && HasBytesAt(s, Encode(u), index)
  {
    if SequenceLength(s, index) == k {
      AcceptedEncodes(s, index);
    }
    if u :| IsScalar(u) && |Encode(u)| == k && HasBytesAt(s, Encode(u), index) {
      EncodedAccepted(s, index, u);
    }
  }
}
